/**
 The realtime hub of server/realtime.ts as functions on a value: the connection table, the
 per-user device index, presence, and the broadcast cascades that failed writes set off.

 The table is a JavaScript Map. Its iteration order and the effect of deleting while iterating
 are those of the ECMAScript entry list: entries are appended, a deleted entry stays behind as
 a hole, and a running loop goes on by position.
 */
module HubSpec {

  datatype Client = Client(id: string, tenantId: string, userId: string, groups: set<string>)

  datatype Entry = Live(client: Client) | Hole

  datatype Event =
    | PresenceChanged(userId: string, online: bool)
    | Connected(connId: string)
    | KeepAlive
    | Message(name: string, payload: string)

  // What one `res.write` plus flush does: both succeed, the flush throws, or the write throws.
  datatype WriteOutcome = Sent | SentThenThrew | Threw

  // One event that reached one connection, tagged with the broadcast it belongs to.
  datatype Delivery = Delivery(broadcast: nat, connId: string, event: Event)

  datatype Announcement = Announcement(userId: string, online: bool)

  // Who a loop over the table writes to: every client (keepalive) or the members of a group.
  datatype Audience = Everyone | Group(name: string)

  // The users in the database, and the outcome of the n-th write the hub attempts.
  datatype Env = Env(known: set<string>, outcome: nat -> WriteOutcome)

  datatype Hub = Hub(
    entries: seq<Entry>,
    devices: map<string, set<string>>,
    online: set<string>,
    announced: seq<Announcement>,
    log: seq<Delivery>,
    broadcasts: nat,
    writes: nat)

  const Empty := Hub([], map[], {}, [], [], 0, 0)

  // ---------- the table ----------

  function LiveCount(entries: seq<Entry>): nat { LiveUpTo(entries, |entries|) }

  function LiveUpTo(entries: seq<Entry>, n: nat): nat
    requires n <= |entries|
  {
    if n == 0 then 0 else LiveUpTo(entries, n - 1) + (if entries[n - 1].Live? then 1 else 0)
  }

  lemma {:induction false} LiveUpToAfterHole(entries: seq<Entry>, k: nat, n: nat)
    requires k < |entries| && entries[k].Live? && n <= |entries|
    ensures LiveUpTo(entries[k := Hole], n) == LiveUpTo(entries, n) - if k < n then 1 else 0
  {
    if n > 0 {
      LiveUpToAfterHole(entries, k, n - 1);
    }
  }

  lemma LiveCountAfterHole(entries: seq<Entry>, k: nat)
    requires k < |entries| && entries[k].Live?
    ensures LiveCount(entries[k := Hole]) == LiveCount(entries) - 1
  {
    LiveUpToAfterHole(entries, k, |entries|);
  }

  // `clients.get(id)`: the position of the live entry with that id, or |entries|.
  function Find(entries: seq<Entry>, id: string): (k: nat)
    ensures k <= |entries|
    ensures k < |entries| ==> entries[k].Live? && entries[k].client.id == id
    ensures k == |entries| ==> forall j | 0 <= j < |entries| && entries[j].Live? :: entries[j].client.id != id
  {
    FindFrom(entries, id, 0)
  }

  function FindFrom(entries: seq<Entry>, id: string, i: nat): (k: nat)
    requires i <= |entries|
    ensures i <= k <= |entries|
    ensures k < |entries| ==> entries[k].Live? && entries[k].client.id == id
    ensures forall j | i <= j < k && entries[j].Live? :: entries[j].client.id != id
    decreases |entries| - i
  {
    if i == |entries| || (entries[i].Live? && entries[i].client.id == id) then i
    else FindFrom(entries, id, i + 1)
  }

  function TenantGroup(tenantId: string): string { "tenant:" + tenantId }

  function UserGroup(userId: string): string { "user:" + userId }

  predicate Hears(audience: Audience, c: Client) {
    audience.Everyone? || audience.name in c.groups
  }

  // ---------- the operations ----------

  // One guarded write: what was delivered, and whether the catch block runs.
  function Write(env: Env, h: Hub, tag: nat, connId: string, ev: Event): (r: (Hub, bool))
  {
    var o := env.outcome(h.writes);
    (h.(log := if o.Threw? then h.log else h.log + [Delivery(tag, connId, ev)], writes := h.writes + 1),
     !o.Sent?)
  }

  function Unregister(env: Env, h: Hub, id: string): (r: Hub)
    ensures |r.entries| == |h.entries|
    ensures LiveCount(r.entries) <= LiveCount(h.entries)
    decreases LiveCount(h.entries), 0
  {
    var k := Find(h.entries, id);
    if k == |h.entries| then h
    else
      LiveCountAfterHole(h.entries, k);
      var c := h.entries[k].client;
      var gone := h.(entries := h.entries[k := Hole]);
      if c.userId !in gone.devices then gone
      else
        var rest := gone.devices[c.userId] - {id};
        if rest != {} then gone.(devices := gone.devices[c.userId := rest])
        else
          var offline := gone.(devices := gone.devices - {c.userId});
          if c.userId !in env.known then offline
          else Broadcast(env, Announce(offline, c.userId, false), Group(TenantGroup(c.tenantId)),
                         PresenceChanged(c.userId, false))
  }

  // The status write and the presence event that goes with it.
  function Announce(h: Hub, userId: string, isOnline: bool): Hub {
    h.(online := if isOnline then h.online + {userId} else h.online - {userId},
       announced := h.announced + [Announcement(userId, isOnline)])
  }

  function Broadcast(env: Env, h: Hub, audience: Audience, ev: Event): (r: Hub)
    ensures |r.entries| == |h.entries|
    ensures LiveCount(r.entries) <= LiveCount(h.entries)
    decreases LiveCount(h.entries), |h.entries| + 2
  {
    BroadcastFrom(env, h.(broadcasts := h.broadcasts + 1), audience, ev, h.broadcasts, 0)
  }

  function BroadcastFrom(env: Env, h: Hub, audience: Audience, ev: Event, tag: nat, i: nat): (r: Hub)
    requires i <= |h.entries|
    ensures |r.entries| == |h.entries|
    ensures LiveCount(r.entries) <= LiveCount(h.entries)
    decreases LiveCount(h.entries), |h.entries| - i + 1
  {
    if i == |h.entries| then h
    else if h.entries[i].Hole? || !Hears(audience, h.entries[i].client) then
      BroadcastFrom(env, h, audience, ev, tag, i + 1)
    else
      BroadcastFrom(env, Serve(env, h, h.entries[i].client, ev, tag), audience, ev, tag, i + 1)
  }

  // The body of the loop for one listening client.
  function Serve(env: Env, h: Hub, c: Client, ev: Event, tag: nat): (r: Hub)
    ensures |r.entries| == |h.entries|
    ensures LiveCount(r.entries) <= LiveCount(h.entries)
    decreases LiveCount(h.entries), 1
  {
    var (w, threw) := Write(env, h, tag, c.id, ev);
    if threw then Unregister(env, w, c.id) else w
  }

  // `clients.set(id, client)`: an existing key keeps its position.
  function SetClient(entries: seq<Entry>, c: Client): seq<Entry> {
    var k := Find(entries, c.id);
    if k < |entries| then entries[k := Live(c)] else entries + [Live(c)]
  }

  // `accessible` are the workspace, channel and conversation groups the user is subscribed to.
  function Register(env: Env, h: Hub, id: string, tenantId: string, userId: string, accessible: set<string>): Hub {
    Handshake(env, Admit(env, h, id, tenantId, userId, accessible), id)
  }

  function Enroll(h: Hub, id: string, tenantId: string, userId: string, accessible: set<string>): Hub {
    var c := Client(id, tenantId, userId, {UserGroup(userId), TenantGroup(tenantId)} + accessible);
    var before := if userId in h.devices then h.devices[userId] else {};
    h.(entries := SetClient(h.entries, c), devices := h.devices[userId := before + {id}])
  }

  function Admit(env: Env, h: Hub, id: string, tenantId: string, userId: string, accessible: set<string>): Hub {
    var added := Enroll(h, id, tenantId, userId, accessible);
    if (userId in h.devices && h.devices[userId] != {}) || userId !in env.known then added
    else Broadcast(env, Announce(added, userId, true), Group(TenantGroup(tenantId)), PresenceChanged(userId, true))
  }

  // The first write on the new stream. It is not guarded: when it throws, `register` throws too,
  // and nothing but the write itself happens.
  function Handshake(env: Env, h: Hub, id: string): Hub {
    Write(env, h.(broadcasts := h.broadcasts + 1), h.broadcasts, id, Connected(id)).0
  }

  predicate Matches(c: Client, who: string) { c.id == who || c.userId == who }

  function RegroupEntry(e: Entry, who: string, group: string, join: bool): Entry {
    if e.Hole? || !Matches(e.client, who) then e
    else Live(e.client.(groups := if join then e.client.groups + {group} else e.client.groups - {group}))
  }

  function Regroup(entries: seq<Entry>, who: string, group: string, join: bool): (r: seq<Entry>)
    ensures |r| == |entries|
    ensures forall i | 0 <= i < |entries| :: r[i] == RegroupEntry(entries[i], who, group, join)
  {
    seq(|entries|, i requires 0 <= i < |entries| => RegroupEntry(entries[i], who, group, join))
  }

  // ---------- the invariant ----------

  // The connections of one user, read off the table.
  ghost function DeviceIds(entries: seq<Entry>, userId: string): set<string> {
    set i | 0 <= i < |entries| && entries[i].Live? && entries[i].client.userId == userId :: entries[i].client.id
  }

  ghost predicate UniqueIds(entries: seq<Entry>) {
    forall i, j | 0 <= i < j < |entries| && entries[i].Live? && entries[j].Live? ::
      entries[i].client.id != entries[j].client.id
  }

  // The device index is exactly the table grouped by user, with no empty set stored.
  ghost predicate Indexed(h: Hub) {
    && UniqueIds(h.entries)
    && (forall u | u in h.devices :: h.devices[u] != {} && h.devices[u] == DeviceIds(h.entries, u))
    && (forall i | 0 <= i < |h.entries| && h.entries[i].Live? :: h.entries[i].client.userId in h.devices)
  }

  // The last announced presence of a user; nobody is online before the first announcement.
  function LastAnnounced(announced: seq<Announcement>, userId: string): bool {
    if announced == [] then false
    else if announced[|announced| - 1].userId == userId then announced[|announced| - 1].online
    else LastAnnounced(announced[..|announced| - 1], userId)
  }

  // Every announcement flips the presence of its user.
  ghost predicate Alternating(announced: seq<Announcement>) {
    forall i: nat | i < |announced| :: FlipsAt(announced, i)
  }

  predicate FlipsAt(announced: seq<Announcement>, i: nat)
    requires i < |announced|
  {
    announced[i].online == !LastAnnounced(announced[..i], announced[i].userId)
  }

  ghost predicate Inv(env: Env, h: Hub) {
    && Indexed(h)
    && (forall u | u in env.known :: u in h.online <==> u in h.devices)
    && (forall u | u in env.known :: LastAnnounced(h.announced, u) <==> u in h.devices)
    && (forall u | u in h.online :: u in env.known)
    && (forall i | 0 <= i < |h.announced| :: h.announced[i].userId in env.known)
    && Alternating(h.announced)
    && (forall i | 0 <= i < |h.log| :: h.log[i].broadcast < h.broadcasts)
  }
}
