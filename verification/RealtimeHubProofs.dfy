/**
 What the hub keeps through every cascade, and what one broadcast delivers. All statements hold
 for every outcome oracle, hence for every pattern of failing writes.
 */
module HubProofs {
  import opened HubSpec

  // ---------- the invariant survives every operation ----------

  lemma DeviceIdsAfterHole(entries: seq<Entry>, k: nat, u: string)
    requires k < |entries| && entries[k].Live? && UniqueIds(entries)
    ensures DeviceIds(entries[k := Hole], u)
      == if u == entries[k].client.userId then DeviceIds(entries, u) - {entries[k].client.id} else DeviceIds(entries, u)
  {
    var after := entries[k := Hole];
    var c := entries[k].client;
    forall id | id in DeviceIds(entries, u) && (u != c.userId || id != c.id) ensures id in DeviceIds(after, u) {
      var i :| 0 <= i < |entries| && entries[i].Live? && entries[i].client.userId == u && entries[i].client.id == id;
      assert i != k && after[i] == entries[i];
    }
    forall id | id in DeviceIds(after, u) ensures id in DeviceIds(entries, u) && (u != c.userId || id != c.id) {
      var i :| 0 <= i < |after| && after[i].Live? && after[i].client.userId == u && after[i].client.id == id;
      assert i != k && entries[i] == after[i];
    }
  }

  lemma AppendAnnouncement(announced: seq<Announcement>, a: Announcement)
    requires Alternating(announced) && a.online == !LastAnnounced(announced, a.userId)
    ensures Alternating(announced + [a])
    ensures forall u :: LastAnnounced(announced + [a], u) == if u == a.userId then a.online else LastAnnounced(announced, u)
  {
    var all := announced + [a];
    assert all[..|announced|] == announced;
    forall i: nat | i < |all| ensures FlipsAt(all, i) {
      if i < |announced| {
        assert FlipsAt(announced, i) && all[..i] == announced[..i];
      }
    }
  }

  lemma AnnounceKeeps(env: Env, h: Hub, userId: string, isOnline: bool)
    requires Indexed(h) && Alternating(h.announced) && userId in env.known
    requires forall i | 0 <= i < |h.announced| :: h.announced[i].userId in env.known
    requires forall i | 0 <= i < |h.log| :: h.log[i].broadcast < h.broadcasts
    requires forall u | u in h.online :: u in env.known
    requires forall u | u in env.known && u != userId ::
      (u in h.online <==> u in h.devices) && (LastAnnounced(h.announced, u) <==> u in h.devices)
    requires LastAnnounced(h.announced, userId) == !isOnline
    requires userId in h.devices <==> isOnline
    ensures Inv(env, Announce(h, userId, isOnline))
  {
    AppendAnnouncement(h.announced, Announcement(userId, isOnline));
  }

  // Taking a live client out of the table and the index, before anything is announced.
  function Removed(h: Hub, k: nat): Hub
    requires k < |h.entries| && h.entries[k].Live? && h.entries[k].client.userId in h.devices
  {
    var c := h.entries[k].client;
    var rest := h.devices[c.userId] - {c.id};
    h.(entries := h.entries[k := Hole],
       devices := if rest == {} then h.devices - {c.userId} else h.devices[c.userId := rest])
  }

  lemma RemovalIndexed(h: Hub, k: nat)
    requires Indexed(h) && k < |h.entries| && h.entries[k].Live?
    ensures h.entries[k].client.userId in h.devices && Indexed(Removed(h, k))
  {
    var c := h.entries[k].client;
    var g := Removed(h, k);
    forall u | u in g.devices ensures g.devices[u] != {} && g.devices[u] == DeviceIds(g.entries, u) {
      DeviceIdsAfterHole(h.entries, k, u);
    }
    forall i | 0 <= i < |g.entries| && g.entries[i].Live? ensures g.entries[i].client.userId in g.devices {
      assert g.entries[i] == h.entries[i] && i != k;
      OtherDeviceStays(h, k, i);
    }
  }

  lemma OtherDeviceStays(h: Hub, k: nat, i: nat)
    requires Indexed(h) && k < |h.entries| && h.entries[k].Live? && i < |h.entries| && h.entries[i].Live? && i != k
    ensures h.entries[k].client.userId in h.devices
    ensures h.entries[i].client.userId in Removed(h, k).devices
  {
    var c, d := h.entries[k].client, h.entries[i].client;
    assert d.id in DeviceIds(h.entries, d.userId);
    assert d.id != c.id;
    if d.userId == c.userId {
      assert d.id in h.devices[c.userId] - {c.id};
    }
  }

  lemma WriteKeeps(env: Env, h: Hub, tag: nat, connId: string, ev: Event)
    requires Inv(env, h) && tag < h.broadcasts
    ensures Inv(env, Write(env, h, tag, connId, ev).0)
  {
  }

  lemma {:induction false} UnregisterKeeps(env: Env, h: Hub, id: string)
    requires Inv(env, h)
    ensures Inv(env, Unregister(env, h, id))
    decreases LiveCount(h.entries), 0
  {
    var k := Find(h.entries, id);
    if k < |h.entries| {
      LiveCountAfterHole(h.entries, k);
      RemovalIndexed(h, k);
      var c := h.entries[k].client;
      if h.devices[c.userId] - {id} == {} {
        var offline := Removed(h, k);
        if c.userId in env.known {
          AnnounceKeeps(env, offline, c.userId, false);
          BroadcastKeeps(env, Announce(offline, c.userId, false), Group(TenantGroup(c.tenantId)), PresenceChanged(c.userId, false));
        }
      }
    }
  }

  lemma {:induction false} BroadcastKeeps(env: Env, h: Hub, audience: Audience, ev: Event)
    requires Inv(env, h)
    ensures Inv(env, Broadcast(env, h, audience, ev))
    decreases LiveCount(h.entries), |h.entries| + 2
  {
    BroadcastFromKeeps(env, h.(broadcasts := h.broadcasts + 1), audience, ev, h.broadcasts, 0);
  }

  lemma {:induction false} ServeKeeps(env: Env, h: Hub, c: Client, ev: Event, tag: nat)
    requires Inv(env, h) && tag < h.broadcasts
    ensures Inv(env, Serve(env, h, c, ev, tag))
    ensures Serve(env, h, c, ev, tag).broadcasts >= h.broadcasts
    decreases LiveCount(h.entries), 1
  {
    WriteKeeps(env, h, tag, c.id, ev);
    UnregisterKeeps(env, Write(env, h, tag, c.id, ev).0, c.id);
    TagsGrow(env, Write(env, h, tag, c.id, ev).0, c.id);
  }

  lemma {:induction false} BroadcastFromKeeps(env: Env, h: Hub, audience: Audience, ev: Event, tag: nat, i: nat)
    requires Inv(env, h) && i <= |h.entries| && tag < h.broadcasts
    ensures Inv(env, BroadcastFrom(env, h, audience, ev, tag, i))
    decreases LiveCount(h.entries), |h.entries| - i + 1
  {
    if i == |h.entries| {
      assert BroadcastFrom(env, h, audience, ev, tag, i) == h;
    } else if h.entries[i].Hole? || !Hears(audience, h.entries[i].client) {
      BroadcastFromKeeps(env, h, audience, ev, tag, i + 1);
      assert BroadcastFrom(env, h, audience, ev, tag, i) == BroadcastFrom(env, h, audience, ev, tag, i + 1);
    } else {
      var s := Serve(env, h, h.entries[i].client, ev, tag);
      ServeKeeps(env, h, h.entries[i].client, ev, tag);
      BroadcastFromKeeps(env, s, audience, ev, tag, i + 1);
      assert BroadcastFrom(env, h, audience, ev, tag, i) == BroadcastFrom(env, s, audience, ev, tag, i + 1);
    }
  }

  // ---------- what a cascade may change ----------

  // From `h` to `r` the table only gains holes, and the log only grows, by deliveries that belong
  // to the broadcast `tag` or to broadcasts started since.
  ghost predicate Cascaded(h: Hub, r: Hub, tag: nat) {
    && |r.entries| == |h.entries|
    && (forall i | 0 <= i < |h.entries| :: r.entries[i] == h.entries[i] || r.entries[i].Hole?)
    && h.broadcasts <= r.broadcasts
    && h.log <= r.log
    && (forall i | |h.log| <= i < |r.log| :: r.log[i].broadcast == tag || h.broadcasts <= r.log[i].broadcast)
  }

  lemma CascadedTrans(a: Hub, b: Hub, c: Hub, tag: nat)
    requires Cascaded(a, b, tag) && Cascaded(b, c, tag)
    ensures Cascaded(a, c, tag)
  {
    forall i | |a.log| <= i < |c.log| ensures c.log[i].broadcast == tag || a.broadcasts <= c.log[i].broadcast {
      if i < |b.log| { assert c.log[i] == b.log[i]; }
    }
  }

  lemma {:induction false} UnregisterCascades(env: Env, h: Hub, id: string, tag: nat)
    requires tag <= h.broadcasts
    ensures Cascaded(h, Unregister(env, h, id), tag)
    decreases LiveCount(h.entries), 0
  {
    var k := Find(h.entries, id);
    if k < |h.entries| {
      LiveCountAfterHole(h.entries, k);
      var c := h.entries[k].client;
      if c.userId in h.devices && h.devices[c.userId] - {id} == {} && c.userId in env.known {
        var offline := Announce(h.(entries := h.entries[k := Hole], devices := h.devices - {c.userId}), c.userId, false);
        BroadcastCascades(env, offline, Group(TenantGroup(c.tenantId)), PresenceChanged(c.userId, false), tag);
      }
    }
  }

  lemma {:induction false} BroadcastCascades(env: Env, h: Hub, audience: Audience, ev: Event, tag: nat)
    requires tag <= h.broadcasts
    ensures Cascaded(h, Broadcast(env, h, audience, ev), tag)
    decreases LiveCount(h.entries), |h.entries| + 2
  {
    BroadcastFromCascades(env, h.(broadcasts := h.broadcasts + 1), audience, ev, h.broadcasts, 0);
  }

  lemma {:induction false} ServeCascades(env: Env, h: Hub, c: Client, ev: Event, tag: nat)
    requires tag < h.broadcasts
    ensures Cascaded(h, Serve(env, h, c, ev, tag), tag)
    decreases LiveCount(h.entries), 1
  {
    var (w, threw) := Write(env, h, tag, c.id, ev);
    if threw {
      UnregisterCascades(env, w, c.id, tag);
      CascadedTrans(h, w, Unregister(env, w, c.id), tag);
    }
  }

  lemma {:induction false} BroadcastFromCascades(env: Env, h: Hub, audience: Audience, ev: Event, tag: nat, i: nat)
    requires i <= |h.entries| && tag < h.broadcasts
    ensures Cascaded(h, BroadcastFrom(env, h, audience, ev, tag, i), tag)
    decreases LiveCount(h.entries), |h.entries| - i + 1
  {
    if i == |h.entries| {
    } else if h.entries[i].Hole? || !Hears(audience, h.entries[i].client) {
      BroadcastFromCascades(env, h, audience, ev, tag, i + 1);
    } else {
      var s := Serve(env, h, h.entries[i].client, ev, tag);
      ServeCascades(env, h, h.entries[i].client, ev, tag);
      BroadcastFromCascades(env, s, audience, ev, tag, i + 1);
      CascadedTrans(h, s, BroadcastFrom(env, s, audience, ev, tag, i + 1), tag);
    }
  }

  lemma TagsGrow(env: Env, h: Hub, id: string)
    ensures Unregister(env, h, id).broadcasts >= h.broadcasts
  {
    UnregisterCascades(env, h, id, 0);
  }

  // ---------- delivery ----------

  // How often connection `id` got the event of broadcast `tag`.
  function Received(log: seq<Delivery>, tag: nat, id: string): nat {
    if log == [] then 0
    else
      var last := log[|log| - 1];
      Received(log[..|log| - 1], tag, id) + (if last.broadcast == tag && last.connId == id then 1 else 0)
  }

  // Entries of other broadcasts do not count.
  lemma {:induction false} ReceivedElsewhere(log: seq<Delivery>, n: nat, tag: nat, id: string)
    requires n <= |log|
    requires forall i | n <= i < |log| :: log[i].broadcast != tag
    ensures Received(log, tag, id) == Received(log[..n], tag, id)
    decreases |log|
  {
    if n == |log| {
      assert log[..n] == log;
    } else {
      var shorter := log[..|log| - 1];
      ReceivedElsewhere(shorter, n, tag, id);
      assert shorter[..n] == log[..n];
    }
  }

  // Serving the client at position `i`: it gets the event at most once, exactly once when it
  // stays registered, and nobody else gets it.
  ghost predicate Served(h: Hub, r: Hub, i: nat, ev: Event, tag: nat)
    requires i < |h.entries| == |r.entries| && h.entries[i].Live?
  {
    var id := h.entries[i].client.id;
    && Received(h.log, tag, id) <= Received(r.log, tag, id) <= Received(h.log, tag, id) + 1
    && (r.entries[i].Live? ==> Received(r.log, tag, id) == Received(h.log, tag, id) + 1)
    && (forall other | other != id :: Received(r.log, tag, other) == Received(h.log, tag, other))
    && (forall j | |h.log| <= j < |r.log| && r.log[j].broadcast == tag :: r.log[j].event == ev)
  }

  lemma ServeDelivers(env: Env, h: Hub, i: nat, ev: Event, tag: nat)
    requires UniqueIds(h.entries) && tag < h.broadcasts && i < |h.entries| && h.entries[i].Live?
    ensures Served(h, Serve(env, h, h.entries[i].client, ev, tag), i, ev, tag)
  {
    var c := h.entries[i].client;
    var (w, threw) := Write(env, h, tag, c.id, ev);
    assert w.log == h.log || w.log[..|h.log|] == h.log;
    assert Find(w.entries, c.id) == i;
    if threw {
      DropSilent(env, w, c.id, tag);
      UnregisterRemoves(env, w, c.id);
      var r := Unregister(env, w, c.id);
      assert forall j | |h.log| <= j < |w.log| :: r.log[j] == w.log[j];
    }
  }

  // The cascade behind an unregistration delivers nothing under an older tag.
  lemma DropSilent(env: Env, w: Hub, id: string, tag: nat)
    requires tag < w.broadcasts
    ensures var r := Unregister(env, w, id);
      && w.log <= r.log && |r.entries| == |w.entries|
      && (forall j | |w.log| <= j < |r.log| :: r.log[j].broadcast != tag)
      && (forall other :: Received(r.log, tag, other) == Received(w.log, tag, other))
  {
    var r := Unregister(env, w, id);
    UnregisterCascades(env, w, id, w.broadcasts);
    forall other ensures Received(r.log, tag, other) == Received(w.log, tag, other) {
      ReceivedElsewhere(r.log, |w.log|, tag, other);
      assert r.log[..|w.log|] == w.log;
    }
  }

  lemma UnregisterRemoves(env: Env, h: Hub, id: string)
    ensures var k := Find(h.entries, id); k < |h.entries| ==> Unregister(env, h, id).entries[k].Hole?
  {
    var k := Find(h.entries, id);
    if k < |h.entries| {
      var c := h.entries[k].client;
      if c.userId in h.devices && h.devices[c.userId] - {id} == {} && c.userId in env.known {
        var offline := Announce(h.(entries := h.entries[k := Hole], devices := h.devices - {c.userId}), c.userId, false);
        BroadcastCascades(env, offline, Group(TenantGroup(c.tenantId)), PresenceChanged(c.userId, false), 0);
      }
    }
  }

  // Connection `id` is still to be served by a loop that stands at position `i`.
  ghost predicate Awaits(h: Hub, audience: Audience, i: nat, id: string) {
    exists j | i <= j < |h.entries| && h.entries[j].Live? && Hears(audience, h.entries[j].client) ::
      h.entries[j].client.id == id
  }

  // What the loop still owes from position `i` on.
  ghost predicate Delivered(h: Hub, r: Hub, audience: Audience, ev: Event, tag: nat, i: nat)
    requires |r.entries| == |h.entries|
  {
    && (forall j | i <= j < |h.entries| && h.entries[j].Live? && Hears(audience, h.entries[j].client) ::
          var id := h.entries[j].client.id;
          && Received(h.log, tag, id) <= Received(r.log, tag, id) <= Received(h.log, tag, id) + 1
          && (r.entries[j].Live? ==> Received(r.log, tag, id) == Received(h.log, tag, id) + 1))
    && (forall id :: !Awaits(h, audience, i, id) ==> Received(r.log, tag, id) == Received(h.log, tag, id))
    && (forall k | |h.log| <= k < |r.log| && r.log[k].broadcast == tag :: r.log[k].event == ev)
  }

  lemma {:induction false} BroadcastFromDelivers(env: Env, h: Hub, audience: Audience, ev: Event, tag: nat, i: nat)
    requires UniqueIds(h.entries) && i <= |h.entries| && tag < h.broadcasts
    ensures Delivered(h, BroadcastFrom(env, h, audience, ev, tag, i), audience, ev, tag, i)
    decreases LiveCount(h.entries), |h.entries| - i + 1
  {
    if i == |h.entries| {
      LoopOver(env, h, audience, ev, tag);
    } else if h.entries[i].Hole? || !Hears(audience, h.entries[i].client) {
      BroadcastFromDelivers(env, h, audience, ev, tag, i + 1);
      SkipDelivered(h, BroadcastFrom(env, h, audience, ev, tag, i + 1), audience, ev, tag, i);
      assert BroadcastFrom(env, h, audience, ev, tag, i) == BroadcastFrom(env, h, audience, ev, tag, i + 1);
    } else {
      ServingDelivers(env, h, audience, ev, tag, i);
    }
  }

  lemma LoopOver(env: Env, h: Hub, audience: Audience, ev: Event, tag: nat)
    ensures Delivered(h, BroadcastFrom(env, h, audience, ev, tag, |h.entries|), audience, ev, tag, |h.entries|)
  {
  }

  lemma HolesKeepUnique(h: Hub, s: Hub, tag: nat)
    requires UniqueIds(h.entries) && Cascaded(h, s, tag) && tag < h.broadcasts
    ensures UniqueIds(s.entries) && tag < s.broadcasts
  {
  }

  lemma {:induction false} ServingDelivers(env: Env, h: Hub, audience: Audience, ev: Event, tag: nat, i: nat)
    requires UniqueIds(h.entries) && i < |h.entries| && tag < h.broadcasts
    requires h.entries[i].Live? && Hears(audience, h.entries[i].client)
    ensures Delivered(h, BroadcastFrom(env, h, audience, ev, tag, i), audience, ev, tag, i)
    decreases LiveCount(h.entries), |h.entries| - i + 1, 0
  {
    var s := Serve(env, h, h.entries[i].client, ev, tag);
    ServeCascades(env, h, h.entries[i].client, ev, tag);
    HolesKeepUnique(h, s, tag);
    BroadcastFromDelivers(env, s, audience, ev, tag, i + 1);
    RestDelivered(env, h, s, audience, ev, tag, i);
  }

  lemma RestDelivered(env: Env, h: Hub, s: Hub, audience: Audience, ev: Event, tag: nat, i: nat)
    requires UniqueIds(h.entries) && tag < h.broadcasts && Cascaded(h, s, tag)
    requires i < |h.entries| && h.entries[i].Live? && Hears(audience, h.entries[i].client)
    requires s == Serve(env, h, h.entries[i].client, ev, tag)
    requires Delivered(s, BroadcastFrom(env, s, audience, ev, tag, i + 1), audience, ev, tag, i + 1)
    ensures Delivered(h, BroadcastFrom(env, h, audience, ev, tag, i), audience, ev, tag, i)
  {
    var r := BroadcastFrom(env, s, audience, ev, tag, i + 1);
    ServeDelivers(env, h, i, ev, tag);
    BroadcastFromCascades(env, s, audience, ev, tag, i + 1);
    StepDelivered(h, s, r, audience, ev, tag, i);
    assert BroadcastFrom(env, h, audience, ev, tag, i) == r;
  }

  lemma SkipDelivered(h: Hub, r: Hub, audience: Audience, ev: Event, tag: nat, i: nat)
    requires i < |h.entries| == |r.entries|
    requires h.entries[i].Hole? || !Hears(audience, h.entries[i].client)
    requires Delivered(h, r, audience, ev, tag, i + 1)
    ensures Delivered(h, r, audience, ev, tag, i)
  {
    forall id | !Awaits(h, audience, i, id) ensures !Awaits(h, audience, i + 1, id) {
    }
  }

  lemma StepDelivered(h: Hub, s: Hub, r: Hub, audience: Audience, ev: Event, tag: nat, i: nat)
    requires UniqueIds(h.entries) && i < |h.entries| && h.entries[i].Live? && Hears(audience, h.entries[i].client)
    requires Cascaded(h, s, tag) && Cascaded(s, r, tag)
    requires Served(h, s, i, ev, tag)
    requires Delivered(s, r, audience, ev, tag, i + 1)
    ensures Delivered(h, r, audience, ev, tag, i)
  {
    var c := h.entries[i].client;
    // The remaining loop does not touch the client just served.
    assert forall j | i + 1 <= j < |s.entries| && s.entries[j].Live? :: s.entries[j] == h.entries[j] && s.entries[j].client.id != c.id;
    assert !Awaits(s, audience, i + 1, c.id);
    forall j | i <= j < |h.entries| && h.entries[j].Live? && Hears(audience, h.entries[j].client)
      ensures var id := h.entries[j].client.id;
        && Received(h.log, tag, id) <= Received(r.log, tag, id) <= Received(h.log, tag, id) + 1
        && (r.entries[j].Live? ==> Received(r.log, tag, id) == Received(h.log, tag, id) + 1)
    {
      if j > i && s.entries[j].Hole? {
        DroppedNotAwaited(h, s, audience, i, j);
      }
    }
    forall id | !Awaits(h, audience, i, id) ensures Received(r.log, tag, id) == Received(h.log, tag, id) {
      NotAwaitedLater(h, s, audience, i, id);
    }
    assert forall k | |h.log| <= k < |s.log| :: r.log[k] == s.log[k];
  }

  lemma DroppedNotAwaited(h: Hub, s: Hub, audience: Audience, i: nat, j: nat)
    requires UniqueIds(h.entries) && i < j < |h.entries| == |s.entries|
    requires h.entries[j].Live? && s.entries[j].Hole?
    requires forall m | 0 <= m < |h.entries| :: s.entries[m] == h.entries[m] || s.entries[m].Hole?
    ensures !Awaits(s, audience, i + 1, h.entries[j].client.id)
  {
  }

  lemma NotAwaitedLater(h: Hub, s: Hub, audience: Audience, i: nat, id: string)
    requires i < |h.entries| == |s.entries| && h.entries[i].Live? && Hears(audience, h.entries[i].client)
    requires forall m | 0 <= m < |h.entries| :: s.entries[m] == h.entries[m] || s.entries[m].Hole?
    requires !Awaits(h, audience, i, id)
    ensures id != h.entries[i].client.id && !Awaits(s, audience, i + 1, id)
  {
  }

  // ---------- main results ----------

  // A broadcast reaches every member that is still registered afterwards exactly once, a member
  // dropped on the way at most once, and nobody else, whatever cascades run inside it. Every
  // copy carries the broadcast's own event, and the hub comes out consistent.
  lemma BroadcastDeliversExactly(env: Env, h: Hub, group: string, ev: Event)
    requires Inv(env, h)
    ensures var r := Broadcast(env, h, Group(group), ev);
      var tag := h.broadcasts;
      && Inv(env, r)
      && (forall j | 0 <= j < |h.entries| :: r.entries[j] == h.entries[j] || r.entries[j].Hole?)
      && (forall j | 0 <= j < |r.entries| && r.entries[j].Live? && group in r.entries[j].client.groups ::
            Received(r.log, tag, r.entries[j].client.id) == 1)
      && (forall id :: Received(r.log, tag, id) <= 1)
      && (forall id :: Received(r.log, tag, id) == 1 ==> Awaits(h, Group(group), 0, id))
      && (forall k | 0 <= k < |r.log| && r.log[k].broadcast == tag :: r.log[k].event == ev)
  {
    BroadcastKeeps(env, h, Group(group), ev);
    WholeLoop(env, h, Group(group), ev);
    NothingYet(h);
    OnlyOnce(h, Broadcast(env, h, Group(group), ev), group, ev, h.broadcasts);
  }

  lemma WholeLoop(env: Env, h: Hub, audience: Audience, ev: Event)
    requires Inv(env, h)
    ensures var r := Broadcast(env, h, audience, ev);
      && (forall j | 0 <= j < |h.entries| :: r.entries[j] == h.entries[j] || r.entries[j].Hole?)
      && h.log <= r.log
      && Delivered(h, r, audience, ev, h.broadcasts, 0)
  {
    var b := h.(broadcasts := h.broadcasts + 1);
    BroadcastFromCascades(env, b, audience, ev, h.broadcasts, 0);
    BroadcastFromDelivers(env, b, audience, ev, h.broadcasts, 0);
    forall id | !Awaits(h, audience, 0, id) ensures !Awaits(b, audience, 0, id) {
    }
  }

  // A loop over the whole table that owed everything and delivered under a new tag.
  lemma OnlyOnce(b: Hub, r: Hub, group: string, ev: Event, tag: nat)
    requires |r.entries| == |b.entries|
    requires forall j | 0 <= j < |b.entries| :: r.entries[j] == b.entries[j] || r.entries[j].Hole?
    requires b.log <= r.log && Delivered(b, r, Group(group), ev, tag, 0)
    requires forall id :: Received(b.log, tag, id) == 0
    requires forall k | 0 <= k < |b.log| :: b.log[k].broadcast != tag
    ensures forall id :: Received(r.log, tag, id) <= 1 && (Received(r.log, tag, id) == 1 ==> Awaits(b, Group(group), 0, id))
    ensures forall j | 0 <= j < |r.entries| && r.entries[j].Live? && group in r.entries[j].client.groups ::
      Received(r.log, tag, r.entries[j].client.id) == 1
    ensures forall k | 0 <= k < |r.log| && r.log[k].broadcast == tag :: r.log[k].event == ev
  {
    forall id ensures Received(r.log, tag, id) <= 1 && (Received(r.log, tag, id) == 1 ==> Awaits(b, Group(group), 0, id)) {
      if Awaits(b, Group(group), 0, id) {
        var j :| 0 <= j < |b.entries| && b.entries[j].Live? && Hears(Group(group), b.entries[j].client) && b.entries[j].client.id == id;
      }
    }
    assert forall k | 0 <= k < |b.log| :: r.log[k] == b.log[k];
  }

  lemma NothingYet(h: Hub)
    requires forall i | 0 <= i < |h.log| :: h.log[i].broadcast < h.broadcasts
    ensures forall id :: Received(h.log, h.broadcasts, id) == 0
  {
    forall id ensures Received(h.log, h.broadcasts, id) == 0 {
      ReceivedElsewhere(h.log, 0, h.broadcasts, id);
    }
  }

  // ---------- registration and group changes ----------

  ghost predicate Fresh(h: Hub, id: string) {
    forall i | 0 <= i < |h.entries| && h.entries[i].Live? :: h.entries[i].client.id != id
  }

  lemma DeviceIdsAfterAppend(entries: seq<Entry>, c: Client, u: string)
    ensures DeviceIds(entries + [Live(c)], u) == DeviceIds(entries, u) + (if u == c.userId then {c.id} else {})
  {
    var after := entries + [Live(c)];
    forall id | id in DeviceIds(entries, u) ensures id in DeviceIds(after, u) {
      var i :| 0 <= i < |entries| && entries[i].Live? && entries[i].client.userId == u && entries[i].client.id == id;
      assert after[i] == entries[i];
    }
    assert after[|entries|] == Live(c);
  }

  lemma EnrollIndexed(h: Hub, id: string, tenantId: string, userId: string, accessible: set<string>)
    requires Indexed(h) && Fresh(h, id)
    ensures Indexed(Enroll(h, id, tenantId, userId, accessible))
  {
    var c := Client(id, tenantId, userId, {UserGroup(userId), TenantGroup(tenantId)} + accessible);
    var r := Enroll(h, id, tenantId, userId, accessible);
    assert r.entries == h.entries + [Live(c)];
    forall u | u in r.devices ensures r.devices[u] != {} && r.devices[u] == DeviceIds(r.entries, u) {
      DeviceIdsAfterAppend(h.entries, c, u);
      if u !in h.devices {
        NoDevices(h, u);
      }
    }
  }

  lemma NoDevices(h: Hub, u: string)
    requires Indexed(h) && u !in h.devices
    ensures DeviceIds(h.entries, u) == {}
  {
    assert forall i | 0 <= i < |h.entries| && h.entries[i].Live? :: h.entries[i].client.userId != u;
  }

  lemma RegisterKeeps(env: Env, h: Hub, id: string, tenantId: string, userId: string, accessible: set<string>)
    requires Inv(env, h) && Fresh(h, id)
    ensures Inv(env, Admit(env, h, id, tenantId, userId, accessible))
    ensures Inv(env, Register(env, h, id, tenantId, userId, accessible))
  {
    EnrollIndexed(h, id, tenantId, userId, accessible);
    var added := Enroll(h, id, tenantId, userId, accessible);
    if userId !in h.devices && userId in env.known {
      AnnounceKeeps(env, added, userId, true);
      BroadcastKeeps(env, Announce(added, userId, true), Group(TenantGroup(tenantId)), PresenceChanged(userId, true));
    }
    var admitted := Admit(env, h, id, tenantId, userId, accessible);
    WriteKeeps(env, admitted.(broadcasts := admitted.broadcasts + 1), admitted.broadcasts, id, Connected(id));
  }

  // A new connection enters at the end, subscribed to its user, its tenant and what the user may
  // see. Only the cascade of its announcement may drop it, or others, before its first event.
  lemma RegisterEnters(env: Env, h: Hub, id: string, tenantId: string, userId: string, accessible: set<string>)
    requires Inv(env, h) && Fresh(h, id)
    ensures var r := Register(env, h, id, tenantId, userId, accessible);
      var c := Client(id, tenantId, userId, {"user:" + userId, "tenant:" + tenantId} + accessible);
      && |r.entries| == |h.entries| + 1
      && (r.entries[|h.entries|] == Live(c) || r.entries[|h.entries|].Hole?)
      && (forall i | 0 <= i < |h.entries| :: r.entries[i] == h.entries[i] || r.entries[i].Hole?)
      && (userId in h.devices || userId !in env.known ==>
            r.entries == h.entries + [Live(c)] && r.announced == h.announced
            && r.log == if env.outcome(h.writes).Threw? then h.log else h.log + [Delivery(h.broadcasts, id, Connected(id))])
      && (userId !in h.devices && userId in env.known ==>
            |h.announced| < |r.announced| && r.announced[|h.announced|] == Announcement(userId, true)
            && h.announced <= r.announced)
  {
    var added := Enroll(h, id, tenantId, userId, accessible);
    var c := Client(id, tenantId, userId, {"user:" + userId, "tenant:" + tenantId} + accessible);
    assert added.entries == h.entries + [Live(c)];
    if userId !in h.devices && userId in env.known {
      BroadcastCascades(env, Announce(added, userId, true), Group(TenantGroup(tenantId)), PresenceChanged(userId, true), h.broadcasts);
      AnnouncedGrows(env, Announce(added, userId, true), Group(TenantGroup(tenantId)), PresenceChanged(userId, true));
    }
  }

  lemma AnnouncedGrows(env: Env, h: Hub, audience: Audience, ev: Event)
    ensures h.announced <= Broadcast(env, h, audience, ev).announced
    decreases LiveCount(h.entries), |h.entries| + 2
  {
    AnnouncedGrowsFrom(env, h.(broadcasts := h.broadcasts + 1), audience, ev, h.broadcasts, 0);
  }

  lemma {:induction false} AnnouncedGrowsFrom(env: Env, h: Hub, audience: Audience, ev: Event, tag: nat, i: nat)
    requires i <= |h.entries|
    ensures h.announced <= BroadcastFrom(env, h, audience, ev, tag, i).announced
    decreases LiveCount(h.entries), |h.entries| - i + 1
  {
    if i == |h.entries| {
    } else if h.entries[i].Hole? || !Hears(audience, h.entries[i].client) {
      AnnouncedGrowsFrom(env, h, audience, ev, tag, i + 1);
    } else {
      var c := h.entries[i].client;
      var (w, threw) := Write(env, h, tag, c.id, ev);
      if threw { AnnouncedGrowsOut(env, w, c.id); }
      AnnouncedGrowsFrom(env, Serve(env, h, c, ev, tag), audience, ev, tag, i + 1);
    }
  }

  lemma {:induction false} AnnouncedGrowsOut(env: Env, h: Hub, id: string)
    ensures h.announced <= Unregister(env, h, id).announced
    decreases LiveCount(h.entries), 0
  {
    var k := Find(h.entries, id);
    if k < |h.entries| {
      LiveCountAfterHole(h.entries, k);
      var c := h.entries[k].client;
      if c.userId in h.devices && h.devices[c.userId] - {id} == {} && c.userId in env.known {
        AnnouncedGrows(env, Announce(h.(entries := h.entries[k := Hole], devices := h.devices - {c.userId}), c.userId, false),
                       Group(TenantGroup(c.tenantId)), PresenceChanged(c.userId, false));
      }
    }
  }

  // The same connections of the same users at the same positions.
  ghost predicate SameClients(a: seq<Entry>, b: seq<Entry>) {
    && |a| == |b|
    && (forall i | 0 <= i < |a| :: a[i].Live? == b[i].Live?)
    && (forall i | 0 <= i < |a| && a[i].Live? ::
          a[i].client.id == b[i].client.id && a[i].client.userId == b[i].client.userId)
  }

  lemma SameDeviceIds(a: seq<Entry>, b: seq<Entry>, u: string)
    requires SameClients(a, b)
    ensures DeviceIds(a, u) == DeviceIds(b, u)
  {
    assert forall i | 0 <= i < |b| && b[i].Live? :: a[i].Live?;
  }

  lemma SameIndexed(h: Hub, entries: seq<Entry>)
    requires Indexed(h) && SameClients(h.entries, entries)
    ensures Indexed(h.(entries := entries))
  {
    forall u | u in h.devices ensures h.devices[u] == DeviceIds(entries, u) {
      SameDeviceIds(h.entries, entries, u);
    }
  }

  lemma RegroupKeeps(env: Env, h: Hub, who: string, group: string, join: bool)
    requires Inv(env, h)
    ensures Inv(env, h.(entries := Regroup(h.entries, who, group, join)))
  {
    SameIndexed(h, Regroup(h.entries, who, group, join));
  }

  // One guarded write: the event arrives unless the write throws, and whatever throws, the write or
  // the flush after it, unregisters the connection.
  lemma {:induction false} ServeExactly(env: Env, h: Hub, c: Client, ev: Event, tag: nat)
    ensures var o, r := env.outcome(h.writes), Serve(env, h, c, ev, tag);
      var arrived := h.(log := h.log + [Delivery(tag, c.id, ev)], writes := h.writes + 1);
      && (o == Sent ==> r == arrived)
      && (o == SentThenThrew ==> r == Unregister(env, arrived, c.id))
      && (o == Threw ==> r == Unregister(env, h.(writes := h.writes + 1), c.id))
  {
  }

  // ---------- what a client hears ----------

  // The loop for everyone, the keepalive: whoever is registered before and after it got it exactly once,
  // and nobody got it who was not registered before.
  lemma {:induction false} KeepaliveReachesAll(env: Env, h: Hub, j: nat)
    requires Inv(env, h) && j < |h.entries| && h.entries[j].Live?
    ensures var r := Broadcast(env, h, Everyone, KeepAlive); var times := Received(r.log, h.broadcasts, h.entries[j].client.id);
      && |r.entries| == |h.entries| && times <= 1
      && (r.entries[j].Live? ==> times == 1)
      && (forall k | 0 <= k < |r.log| && r.log[k].broadcast == h.broadcasts :: r.log[k].event == KeepAlive)
  {
    WholeLoop(env, h, Everyone, KeepAlive);
    NothingYet(h);
  }

  lemma {:induction false} KeepaliveReachesNoOther(env: Env, h: Hub, id: string)
    requires Inv(env, h) && forall j | 0 <= j < |h.entries| && h.entries[j].Live? :: h.entries[j].client.id != id
    ensures Received(Broadcast(env, h, Everyone, KeepAlive).log, h.broadcasts, id) == 0
  {
    WholeLoop(env, h, Everyone, KeepAlive);
    NothingYet(h);
    assert !Awaits(h, Everyone, 0, id);
  }

  // A tenant hears of a presence change in the group `tenant:` of its id.
  lemma {:induction false} TenantHears(env: Env, h: Hub, tenantId: string, userId: string, isOnline: bool, j: nat)
    requires Inv(env, h) && j < |h.entries| && h.entries[j].Live? && "tenant:" + tenantId in h.entries[j].client.groups
    ensures var r := Broadcast(env, h, Group(TenantGroup(tenantId)), PresenceChanged(userId, isOnline));
      && |r.entries| == |h.entries|
      && (r.entries[j].Live? ==> Received(r.log, h.broadcasts, h.entries[j].client.id) == 1)
      && (forall k | 0 <= k < |r.log| && r.log[k].broadcast == h.broadcasts :: r.log[k].event == PresenceChanged(userId, isOnline))
  {
    BroadcastDeliversExactly(env, h, TenantGroup(tenantId), PresenceChanged(userId, isOnline));
  }

  // From `h` to `r` the log gains presence events only.
  ghost predicate OnlyPresence(h: Hub, r: Hub) {
    h.log <= r.log && forall k | |h.log| <= k < |r.log| :: r.log[k].event.PresenceChanged?
  }

  lemma {:induction false} UnregisterPresence(env: Env, h: Hub, id: string)
    ensures OnlyPresence(h, Unregister(env, h, id))
    decreases LiveCount(h.entries), 0
  {
    var k := Find(h.entries, id);
    if k < |h.entries| {
      LiveCountAfterHole(h.entries, k);
      var c := h.entries[k].client;
      if c.userId in h.devices && h.devices[c.userId] - {id} == {} && c.userId in env.known {
        var offline := Announce(h.(entries := h.entries[k := Hole], devices := h.devices - {c.userId}), c.userId, false);
        BroadcastPresence(env, offline, Group(TenantGroup(c.tenantId)), PresenceChanged(c.userId, false));
      }
    }
  }

  lemma {:induction false} BroadcastPresence(env: Env, h: Hub, audience: Audience, ev: Event)
    requires ev.PresenceChanged?
    ensures OnlyPresence(h, Broadcast(env, h, audience, ev))
    decreases LiveCount(h.entries), |h.entries| + 2
  {
    BroadcastFromPresence(env, h.(broadcasts := h.broadcasts + 1), audience, ev, h.broadcasts, 0);
  }

  lemma {:induction false} ServePresence(env: Env, h: Hub, c: Client, ev: Event, tag: nat)
    requires ev.PresenceChanged?
    ensures OnlyPresence(h, Serve(env, h, c, ev, tag))
    decreases LiveCount(h.entries), 1
  {
    var (w, threw) := Write(env, h, tag, c.id, ev);
    if threw { UnregisterPresence(env, w, c.id); }
  }

  lemma {:induction false} BroadcastFromPresence(env: Env, h: Hub, audience: Audience, ev: Event, tag: nat, i: nat)
    requires i <= |h.entries| && ev.PresenceChanged?
    ensures OnlyPresence(h, BroadcastFrom(env, h, audience, ev, tag, i))
    decreases LiveCount(h.entries), |h.entries| - i + 1
  {
    if i == |h.entries| {
    } else if h.entries[i].Hole? || !Hears(audience, h.entries[i].client) {
      BroadcastFromPresence(env, h, audience, ev, tag, i + 1);
    } else {
      var s := Serve(env, h, h.entries[i].client, ev, tag);
      ServePresence(env, h, h.entries[i].client, ev, tag);
      BroadcastFromPresence(env, s, audience, ev, tag, i + 1);
    }
  }

  // Every registration greets: after whatever it announces and its cascades, one write follows, of
  // `Connected` to the new connection. If it gets through it is the last delivery, under the last
  // number; and there is no other `Connected` before it.
  lemma {:induction false} RegisterGreets(env: Env, h: Hub, id: string, tenantId: string, userId: string, accessible: set<string>)
    requires Inv(env, h) && Fresh(h, id)
    ensures var r := Register(env, h, id, tenantId, userId, accessible);
      && h.writes < r.writes && h.broadcasts < r.broadcasts && |h.log| <= |r.log|
      && (if env.outcome(r.writes - 1).Threw? then forall k | |h.log| <= k < |r.log| :: r.log[k].event.PresenceChanged? && r.log[k].broadcast < r.broadcasts - 1
          else
            && |h.log| < |r.log| && r.log[|r.log| - 1] == Delivery(r.broadcasts - 1, id, Connected(id))
            && forall k | |h.log| <= k < |r.log| - 1 :: r.log[k].event.PresenceChanged? && r.log[k].broadcast < r.broadcasts - 1)
  {
    var a := Admit(env, h, id, tenantId, userId, accessible);
    AdmitPresence(env, h, id, tenantId, userId, accessible);
    RegisterKeeps(env, h, id, tenantId, userId, accessible);
    assert forall k | 0 <= k < |a.log| :: a.log[k].broadcast < a.broadcasts;
  }

  lemma {:induction false} AdmitPresence(env: Env, h: Hub, id: string, tenantId: string, userId: string, accessible: set<string>)
    ensures var a := Admit(env, h, id, tenantId, userId, accessible);
      OnlyPresence(h, a) && h.writes <= a.writes && h.broadcasts <= a.broadcasts
  {
    var b := Announce(Enroll(h, id, tenantId, userId, accessible), userId, true);
    BroadcastPresence(env, b, Group(TenantGroup(tenantId)), PresenceChanged(userId, true));
    BroadcastCascades(env, b, Group(TenantGroup(tenantId)), PresenceChanged(userId, true), 0);
    WritesGrow(env, b, Group(TenantGroup(tenantId)), PresenceChanged(userId, true));
  }

  lemma {:induction false} WritesGrow(env: Env, h: Hub, audience: Audience, ev: Event)
    ensures h.writes <= Broadcast(env, h, audience, ev).writes
    decreases LiveCount(h.entries), |h.entries| + 2
  {
    WritesGrowFrom(env, h.(broadcasts := h.broadcasts + 1), audience, ev, h.broadcasts, 0);
  }

  lemma {:induction false} WritesGrowFrom(env: Env, h: Hub, audience: Audience, ev: Event, tag: nat, i: nat)
    requires i <= |h.entries|
    ensures h.writes <= BroadcastFrom(env, h, audience, ev, tag, i).writes
    decreases LiveCount(h.entries), |h.entries| - i + 1
  {
    if i == |h.entries| {
    } else if h.entries[i].Hole? || !Hears(audience, h.entries[i].client) {
      WritesGrowFrom(env, h, audience, ev, tag, i + 1);
    } else {
      var c := h.entries[i].client;
      var (w, threw) := Write(env, h, tag, c.id, ev);
      if threw { WritesGrowOut(env, w, c.id); }
      WritesGrowFrom(env, Serve(env, h, c, ev, tag), audience, ev, tag, i + 1);
    }
  }

  lemma {:induction false} WritesGrowOut(env: Env, h: Hub, id: string)
    ensures h.writes <= Unregister(env, h, id).writes
    decreases LiveCount(h.entries), 0
  {
    var k := Find(h.entries, id);
    if k < |h.entries| {
      LiveCountAfterHole(h.entries, k);
      var c := h.entries[k].client;
      if c.userId in h.devices && h.devices[c.userId] - {id} == {} && c.userId in env.known {
        WritesGrow(env, Announce(h.(entries := h.entries[k := Hole], devices := h.devices - {c.userId}), c.userId, false),
                   Group(TenantGroup(c.tenantId)), PresenceChanged(c.userId, false));
      }
    }
  }

  // The first connection of a user in the database: every client of the tenant still registered
  // afterwards, the new one included, has been told "online" exactly once, in the first broadcast.
  lemma {:induction false} FirstConnectionIsTold(env: Env, h: Hub, id: string, tenantId: string, userId: string, accessible: set<string>, j: nat)
    requires Inv(env, h) && Fresh(h, id) && userId in env.known && userId !in h.devices
    requires j <= |h.entries|
    ensures var r := Register(env, h, id, tenantId, userId, accessible);
      && |r.entries| == |h.entries| + 1
      && (r.entries[j].Live? && "tenant:" + tenantId in r.entries[j].client.groups ==>
            Received(r.log, h.broadcasts, r.entries[j].client.id) == 1)
      && (forall k | 0 <= k < |r.log| && r.log[k].broadcast == h.broadcasts :: r.log[k].event == PresenceChanged(userId, true))
  {
    EnrollIndexed(h, id, tenantId, userId, accessible);
    var b := Announce(Enroll(h, id, tenantId, userId, accessible), userId, true);
    AnnounceKeeps(env, Enroll(h, id, tenantId, userId, accessible), userId, true);
    var a := Broadcast(env, b, Group(TenantGroup(tenantId)), PresenceChanged(userId, true));
    BroadcastDeliversExactly(env, b, TenantGroup(tenantId), PresenceChanged(userId, true));
    BroadcastCascades(env, b, Group(TenantGroup(tenantId)), PresenceChanged(userId, true), 0);
    TagsStart(env, b, tenantId, userId, true);
    GreetingElsewhere(env, a, id, h.broadcasts);
  }

  lemma {:induction false} TagsStart(env: Env, b: Hub, tenantId: string, userId: string, isOnline: bool)
    ensures Broadcast(env, b, Group(TenantGroup(tenantId)), PresenceChanged(userId, isOnline)).broadcasts > b.broadcasts
  {
    BroadcastFromCascades(env, b.(broadcasts := b.broadcasts + 1), Group(TenantGroup(tenantId)), PresenceChanged(userId, isOnline), b.broadcasts, 0);
  }

  lemma {:induction false} GreetingElsewhere(env: Env, a: Hub, id: string, tag: nat)
    requires tag < a.broadcasts
    ensures var r := Handshake(env, a, id);
      && r.entries == a.entries && (forall other :: Received(r.log, tag, other) == Received(a.log, tag, other))
      && forall k | 0 <= k < |r.log| && r.log[k].broadcast == tag :: k < |a.log| && r.log[k] == a.log[k]
  {
    var r := Handshake(env, a, id);
    forall other ensures Received(r.log, tag, other) == Received(a.log, tag, other) {
      ReceivedElsewhere(r.log, |a.log|, tag, other);
      assert r.log[..|a.log|] == a.log;
    }
  }

  // Unregistering the last connection of a user in the database: every client of its tenant still
  // registered afterwards has been told "offline" exactly once, in the first broadcast. Any other
  // connection goes without a word.
  lemma {:induction false} LastConnectionIsTold(env: Env, h: Hub, i: nat, j: nat)
    requires Inv(env, h) && i < |h.entries| && h.entries[i].Live? && j < |h.entries|
    ensures var c := h.entries[i].client; var r := Unregister(env, h, c.id);
      && |r.entries| == |h.entries| && r.entries[i].Hole?
      && if c.userId in env.known && DeviceIds(h.entries, c.userId) == {c.id} then
           && (r.entries[j].Live? && "tenant:" + c.tenantId in r.entries[j].client.groups ==>
                 Received(r.log, h.broadcasts, r.entries[j].client.id) == 1)
           && (forall k | 0 <= k < |r.log| && r.log[k].broadcast == h.broadcasts :: r.log[k].event == PresenceChanged(c.userId, false))
         else r.log == h.log && r.entries == h.entries[i := Hole] && r.announced == h.announced && r.writes == h.writes
  {
    var c := h.entries[i].client;
    assert Find(h.entries, c.id) == i;
    RemovalIndexed(h, i);
    UnregisterRemoves(env, h, c.id);
    assert c.id in DeviceIds(h.entries, c.userId);
    assert h.devices[c.userId] - {c.id} == {} <==> h.devices[c.userId] == {c.id};
    if c.userId in env.known && h.devices[c.userId] == {c.id} {
      AnnounceKeeps(env, Removed(h, i), c.userId, false);
      BroadcastDeliversExactly(env, Announce(Removed(h, i), c.userId, false), TenantGroup(c.tenantId), PresenceChanged(c.userId, false));
    }
  }


  // ---------- what a group change decides ----------

  lemma NotListening(entries: seq<Entry>, h: Hub, group: string, j: nat)
    requires h.entries == entries && UniqueIds(entries) && j < |entries| && entries[j].Live?
    requires group !in entries[j].client.groups
    ensures !Awaits(h, Group(group), 0, entries[j].client.id)
  {
  }

  lemma MemberReceives(env: Env, h: Hub, group: string, ev: Event, j: nat)
    requires Inv(env, h) && j < |h.entries| && h.entries[j].Live? && group in h.entries[j].client.groups
    ensures var r := Broadcast(env, h, Group(group), ev);
      r.entries[j].Live? ==> Received(r.log, h.broadcasts, h.entries[j].client.id) == 1
  {
    BroadcastDeliversExactly(env, h, group, ev);
  }

  lemma OthersReceiveNothing(env: Env, h: Hub, group: string, ev: Event, j: nat)
    requires Inv(env, h) && j < |h.entries| && h.entries[j].Live? && group !in h.entries[j].client.groups
    ensures Received(Broadcast(env, h, Group(group), ev).log, h.broadcasts, h.entries[j].client.id) == 0
  {
    NotListening(h.entries, h, group, j);
    BroadcastDeliversExactly(env, h, group, ev);
  }

  // The next broadcast to the group reaches everyone who joined it exactly once, if still registered,
  // and nobody who left it; the others hear it just as before.
  lemma RegroupDecidesDelivery(env: Env, h: Hub, who: string, group: string, join: bool, ev: Event, j: nat)
    requires Inv(env, h) && j < |h.entries| && h.entries[j].Live?
    ensures var r := Broadcast(env, h.(entries := Regroup(h.entries, who, group, join)), Group(group), ev);
      var c := h.entries[j].client;
      var times := Received(r.log, h.broadcasts, c.id);
      var meant := c.id == who || c.userId == who;
      && |r.entries| == |h.entries|
      && (meant && join && r.entries[j].Live? ==> times == 1)
      && (meant && !join ==> times == 0)
      && (!meant && group in c.groups && r.entries[j].Live? ==> times == 1)
      && (!meant && group !in c.groups ==> times == 0)
  {
    RegroupKeeps(env, h, who, group, join);
    var g := h.(entries := Regroup(h.entries, who, group, join));
    if group in g.entries[j].client.groups {
      MemberReceives(env, g, group, ev, j);
    } else {
      OthersReceiveNothing(env, g, group, ev, j);
    }
  }

  // The table itself: only the groups of those meant change, and only by this group.
  lemma {:induction false} RegroupExactly(entries: seq<Entry>, who: string, group: string, join: bool, j: nat)
    requires j < |entries|
    ensures var e, after := entries[j], Regroup(entries, who, group, join)[j];
      && (e.Hole? ==> after.Hole?)
      && (e.Live? ==>
            var c := e.client;
            after == Live(Client(c.id, c.tenantId, c.userId,
              if c.id != who && c.userId != who then c.groups else if join then c.groups + {group} else c.groups - {group})))
  {
  }

  // A connection that registers under an id of the table takes the place of the other; otherwise it
  // comes last.
  lemma {:induction false} SetClientExactly(entries: seq<Entry>, c: Client, j: nat)
    requires UniqueIds(entries)
    ensures var r := SetClient(entries, c);
      var known := exists i | 0 <= i < |entries| && entries[i].Live? :: entries[i].client.id == c.id;
      && |r| == (if known then |entries| else |entries| + 1) && (!known ==> r[|entries|] == Live(c))
      && (j < |entries| ==> r[j] == if entries[j].Live? && entries[j].client.id == c.id then Live(c) else entries[j])
  {
  }

  // Who listens to any other group does not change.
  lemma RegroupLeavesOthers(h: Hub, who: string, group: string, join: bool, audience: Audience, id: string)
    requires audience != Group(group)
    ensures Awaits(h.(entries := Regroup(h.entries, who, group, join)), audience, 0, id) <==> Awaits(h, audience, 0, id)
  {
    var g := h.(entries := Regroup(h.entries, who, group, join));
    assert forall i | 0 <= i < |h.entries| :: g.entries[i].Live? == h.entries[i].Live?;
    if Awaits(g, audience, 0, id) {
      var i :| 0 <= i < |g.entries| && g.entries[i].Live? && Hears(audience, g.entries[i].client) && g.entries[i].client.id == id;
      assert h.entries[i].Live? && Hears(audience, h.entries[i].client);
    }
    if Awaits(h, audience, 0, id) {
      var i :| 0 <= i < |h.entries| && h.entries[i].Live? && Hears(audience, h.entries[i].client) && h.entries[i].client.id == id;
      assert g.entries[i].Live? && Hears(audience, g.entries[i].client);
    }
  }
}
