/**
 When events arrive in the order in which their broadcasts started. A write that throws inside a
 broadcast drops a connection, and if that was the user's last one a nested broadcast runs to its
 end before the outer loop goes on; whoever hears the outer event after that hears it late.
 */
module HubArrival {
  import opened Wrappers
  import opened HubSpec
  import opened HubProofs
  import opened HubRuns
  import opened HubFarewell

  // Whether the order of all events is looked at or that of the presence events only.
  datatype Scope = AllEvents | PresenceEvents

  predicate Watched(ev: Event, scope: Scope) { scope.AllEvents? || ev.PresenceChanged? }

  predicate Late(log: seq<Delivery>, a: nat, b: nat, scope: Scope)
    requires a < b < |log|
  {
    Watched(log[a].event, scope) && Watched(log[b].event, scope) && log[b].broadcast < log[a].broadcast
  }

  // From position `from` on, no watched event arrives after one of a later broadcast.
  ghost predicate InOrder(log: seq<Delivery>, from: nat, scope: Scope) {
    forall a: nat, b: nat | from <= a < b < |log| :: !Late(log, a, b, scope)
  }

  // ---------- the loop, position by position ----------

  predicate Turn(h: Hub, audience: Audience, j: nat)
    requires j < |h.entries|
  {
    h.entries[j].Live? && Hears(audience, h.entries[j].client)
  }

  // The hub when the loop that started in `h` stands before position `j`.
  function LoopAt(env: Env, h: Hub, audience: Audience, ev: Event, tag: nat, j: nat): (r: Hub)
    requires j <= |h.entries|
    ensures |r.entries| == |h.entries| && LiveCount(r.entries) <= LiveCount(h.entries)
  {
    if j == 0 then h
    else
      var p := LoopAt(env, h, audience, ev, tag, j - 1);
      if Turn(p, audience, j - 1) then Serve(env, p, p.entries[j - 1].client, ev, tag) else p
  }

  lemma LoopStep(env: Env, h: Hub, audience: Audience, ev: Event, tag: nat, j: nat)
    requires 0 < j <= |h.entries|
    ensures BroadcastFrom(env, LoopAt(env, h, audience, ev, tag, j - 1), audience, ev, tag, j - 1)
         == BroadcastFrom(env, LoopAt(env, h, audience, ev, tag, j), audience, ev, tag, j)
  {
  }

  lemma {:induction false} SameThroughout(f: nat -> Hub, n: nat)
    requires forall j: nat | j < n :: f(j + 1) == f(j)
    ensures f(0) == f(n)
  {
    if n > 0 {
      SameThroughout(f, n - 1);
    }
  }

  // The rest of the loop from a position on has the same outcome for every position.
  ghost function Rest(env: Env, h: Hub, audience: Audience, ev: Event, tag: nat): nat -> Hub {
    (j: nat) => if j <= |h.entries| then BroadcastFrom(env, LoopAt(env, h, audience, ev, tag, j), audience, ev, tag, j) else h
  }

  lemma RestSame(env: Env, h: Hub, audience: Audience, ev: Event, tag: nat, j: nat)
    requires j < |h.entries|
    ensures Rest(env, h, audience, ev, tag)(j + 1) == Rest(env, h, audience, ev, tag)(j)
  {
    LoopStep(env, h, audience, ev, tag, j + 1);
  }

  lemma NoTurnLeft(env: Env, p: Hub, audience: Audience, ev: Event, tag: nat)
    ensures BroadcastFrom(env, p, audience, ev, tag, |p.entries|) == p
  {
  }

  lemma RestBounds(env: Env, h: Hub, audience: Audience, ev: Event, tag: nat)
    ensures Rest(env, h, audience, ev, tag)(0) == BroadcastFrom(env, h, audience, ev, tag, 0)
    ensures Rest(env, h, audience, ev, tag)(|h.entries|) == LoopAt(env, h, audience, ev, tag, |h.entries|)
  {
    NoTurnLeft(env, LoopAt(env, h, audience, ev, tag, |h.entries|), audience, ev, tag);
  }

  lemma LoopEnds(env: Env, h: Hub, audience: Audience, ev: Event, tag: nat)
    ensures BroadcastFrom(env, h, audience, ev, tag, 0) == LoopAt(env, h, audience, ev, tag, |h.entries|)
  {
    var rest := Rest(env, h, audience, ev, tag);
    forall j: nat | j < |h.entries| ensures rest(j + 1) == rest(j) { RestSame(env, h, audience, ev, tag, j); }
    SameThroughout(rest, |h.entries|);
    RestBounds(env, h, audience, ev, tag);
  }

  // ---------- nested broadcasts ----------

  // The turn at position `j`: whether the event gets through, and what the loop has to wait for.
  predicate Delivers(env: Env, p: Hub, audience: Audience, j: nat)
    requires j < |p.entries|
  {
    Turn(p, audience, j) && !env.outcome(p.writes).Threw?
  }

  function Dropping(env: Env, p: Hub, audience: Audience, ev: Event, tag: nat, j: nat): (f: Option<Farewell>)
    requires j < |p.entries|
    ensures f.Some? ==> LiveCount(f.value.hub.entries) < LiveCount(p.entries)
  {
    if !Turn(p, audience, j) || env.outcome(p.writes).Sent? then None
    else
      var c := p.entries[j].client;
      FarewellOf(env, Write(env, p, tag, c.id, ev).0, c.id)
  }

  predicate SpeaksAt(env: Env, h: Hub, audience: Audience, ev: Event, tag: nat, j: nat)
    requires j < |h.entries|
  {
    var f := Dropping(env, LoopAt(env, h, audience, ev, tag, j), audience, ev, tag, j);
    f.Some? && Heard(env, f.value)
  }

  // At some position before `n` a nested broadcast ran and was heard.
  predicate Spoken(env: Env, h: Hub, audience: Audience, ev: Event, tag: nat, n: nat)
    requires n <= |h.entries|
  {
    n > 0 && (Spoken(env, h, audience, ev, tag, n - 1) || SpeaksAt(env, h, audience, ev, tag, n - 1))
  }

  // The loop delivers a watched event at `k` after a nested broadcast that somebody heard.
  predicate OvertakenAt(env: Env, h: Hub, audience: Audience, ev: Event, tag: nat, k: nat, scope: Scope)
    requires k < |h.entries|
  {
    && Watched(ev, scope)
    && Delivers(env, LoopAt(env, h, audience, ev, tag, k), audience, k)
    && Spoken(env, h, audience, ev, tag, k)
  }

  // No loop of the cascade is overtaken: neither this one nor those nested in it.
  ghost predicate OrderlyAt(env: Env, h: Hub, audience: Audience, ev: Event, tag: nat, k: nat, scope: Scope)
    requires k < |h.entries|
    decreases LiveCount(h.entries), 0
  {
    var f := Dropping(env, LoopAt(env, h, audience, ev, tag, k), audience, ev, tag, k);
    && !OvertakenAt(env, h, audience, ev, tag, k, scope)
    && (f.Some? ==> OrderlyFarewell(env, f.value, scope))
  }

  ghost predicate OrderlyUpTo(env: Env, h: Hub, audience: Audience, ev: Event, tag: nat, n: nat, scope: Scope)
    requires n <= |h.entries|
    decreases LiveCount(h.entries), 1
  {
    forall k: nat | k < n :: OrderlyAt(env, h, audience, ev, tag, k, scope)
  }

  ghost predicate Orderly(env: Env, h: Hub, audience: Audience, ev: Event, scope: Scope)
    decreases LiveCount(h.entries), 2
  {
    OrderlyUpTo(env, h.(broadcasts := h.broadcasts + 1), audience, ev, h.broadcasts, |h.entries|, scope)
  }

  ghost predicate OrderlyFarewell(env: Env, f: Farewell, scope: Scope)
    decreases LiveCount(f.hub.entries), 3
  {
    Orderly(env, f.hub, Group(TenantGroup(f.client.tenantId)), PresenceChanged(f.client.userId, false), scope)
  }

  // ---------- what one turn adds to the log ----------

  ghost predicate Grown(before: seq<Delivery>, after: seq<Delivery>) {
    |before| <= |after| && forall i | 0 <= i < |before| :: after[i] == before[i]
  }

  // From `h` to `r` the log gains deliveries of `ev` under `tag`, and presence events under the tags
  // used since.
  predicate Gained(h: Hub, r: Hub, tag: nat, ev: Event, i: nat)
    requires i < |r.log|
  {
    var d := r.log[i];
    (d.broadcast == tag && d.event == ev) || (h.broadcasts <= d.broadcast < r.broadcasts && d.event.PresenceChanged?)
  }

  ghost predicate News(h: Hub, r: Hub, tag: nat, ev: Event) {
    && Grown(h.log, r.log) && h.broadcasts <= r.broadcasts
    && forall i: nat | |h.log| <= i < |r.log| :: Gained(h, r, tag, ev, i)
  }

  // Some delivery since `from` belongs to a later broadcast than `tag`.
  ghost predicate Loud(log: seq<Delivery>, from: nat, tag: nat) {
    exists i: nat | from <= i < |log| :: log[i].broadcast > tag
  }

  // Two parts of a log, of which the second has later tags only.
  lemma OrderSplits(before: seq<Delivery>, after: seq<Delivery>, from: nat, bound: nat, scope: Scope)
    requires Grown(before, after) && from <= |before|
    requires forall i | from <= i < |before| :: before[i].broadcast < bound
    requires forall i | |before| <= i < |after| :: after[i].broadcast >= bound
    ensures InOrder(after, from, scope) <==> InOrder(before, from, scope) && InOrder(after, |before|, scope)
  {
    if InOrder(after, from, scope) {
      forall a: nat, b: nat | from <= a < b < |before| ensures !Late(before, a, b, scope) {
        assert !Late(after, a, b, scope);
      }
      forall a: nat, b: nat | |before| <= a < b < |after| ensures !Late(after, a, b, scope) {
      }
    }
    if InOrder(before, from, scope) && InOrder(after, |before|, scope) {
      forall a: nat, b: nat | from <= a < b < |after| ensures !Late(after, a, b, scope) {
        if b < |before| {
          assert !Late(before, a, b, scope);
        }
      }
    }
  }

  // One more delivery, of a broadcast that is older than those nested in it.
  lemma OrderAfterDelivery(before: seq<Delivery>, after: seq<Delivery>, from: nat, tag: nat, ev: Event, scope: Scope)
    requires Grown(before, after) && |after| == |before| + 1 && from <= |before|
    requires after[|before|].broadcast == tag && after[|before|].event == ev
    requires forall i | from <= i < |before| :: before[i].broadcast == tag || (before[i].broadcast > tag && before[i].event.PresenceChanged?)
    ensures InOrder(after, from, scope) <==> InOrder(before, from, scope) && !(Watched(ev, scope) && Loud(before, from, tag))
  {
    var n := |before|;
    if InOrder(after, from, scope) {
      forall a: nat, b: nat | from <= a < b < n ensures !Late(before, a, b, scope) {
        assert !Late(after, a, b, scope);
      }
      if Watched(ev, scope) && Loud(before, from, tag) {
        var a: nat :| from <= a < n && before[a].broadcast > tag;
        assert Late(after, a, n, scope);
      }
    }
    if InOrder(before, from, scope) && !(Watched(ev, scope) && Loud(before, from, tag)) {
      forall a: nat, b: nat | from <= a < b < n + 1 ensures !Late(after, a, b, scope) {
        if b < n {
          assert !Late(before, a, b, scope);
        }
      }
    }
  }

  // ---------- one broadcast with its cascades ----------

  // What is known of the log when the loop from `h` has come to `x`.
  ghost predicate Facts(h: Hub, x: Hub, tag: nat, ev: Event, scope: Scope, order: bool, loud: bool) {
    && News(h, x, tag, ev)
    && (InOrder(x.log, |h.log|, scope) <==> order)
    && (Loud(x.log, |h.log|, tag) <==> loud)
  }

  lemma FactsAtStart(h: Hub, tag: nat, ev: Event, scope: Scope)
    ensures Facts(h, h, tag, ev, scope, true, false)
  {
  }

  lemma LoudAfterDelivery(before: seq<Delivery>, after: seq<Delivery>, from: nat, tag: nat)
    requires Grown(before, after) && |after| == |before| + 1 && after[|before|].broadcast <= tag
    ensures Loud(after, from, tag) <==> Loud(before, from, tag)
  {
    if Loud(before, from, tag) {
      var i: nat :| from <= i < |before| && before[i].broadcast > tag;
      assert after[i].broadcast > tag;
    }
  }

  lemma NewsAfterDelivery(h: Hub, p: Hub, w: Hub, tag: nat, ev: Event)
    requires News(h, p, tag, ev) && Grown(p.log, w.log) && |w.log| == |p.log| + 1 && w.broadcasts == p.broadcasts
    requires w.log[|p.log|].broadcast == tag && w.log[|p.log|].event == ev
    ensures News(h, w, tag, ev)
  {
    forall i: nat | |h.log| <= i < |w.log| ensures Gained(h, w, tag, ev, i) {
      if i < |p.log| { assert Gained(h, p, tag, ev, i); }
    }
  }

  lemma AfterWrite(env: Env, h: Hub, p: Hub, tag: nat, id: string, ev: Event, scope: Scope, order: bool, loud: bool)
    requires tag < h.broadcasts && Facts(h, p, tag, ev, scope, order, loud)
    ensures var late := !env.outcome(p.writes).Threw? && Watched(ev, scope) && loud;
      Facts(h, Write(env, p, tag, id, ev).0, tag, ev, scope, order && !late, loud)
  {
    var w := Write(env, p, tag, id, ev).0;
    if !env.outcome(p.writes).Threw? {
      forall i | |h.log| <= i < |p.log|
        ensures p.log[i].broadcast == tag || (p.log[i].broadcast > tag && p.log[i].event.PresenceChanged?)
      {
        assert Gained(h, p, tag, ev, i);
      }
      OrderAfterDelivery(p.log, w.log, |h.log|, tag, ev, scope);
      LoudAfterDelivery(p.log, w.log, |h.log|, tag);
      NewsAfterDelivery(h, p, w, tag, ev);
    } else {
      SameHistory(h, p, w, tag, ev, scope, order, loud);
    }
  }

  lemma LoudAfterMore(before: seq<Delivery>, after: seq<Delivery>, from: nat, tag: nat)
    requires Grown(before, after) && from <= |before|
    requires forall i | |before| <= i < |after| :: after[i].broadcast > tag
    ensures Loud(after, from, tag) <==> Loud(before, from, tag) || |after| > |before|
  {
    if Loud(before, from, tag) {
      var i: nat :| from <= i < |before| && before[i].broadcast > tag;
      assert after[i].broadcast > tag;
    }
    if |after| > |before| {
      assert after[|before|].broadcast > tag;
    }
  }

  // A nested broadcast from `w` to `r`.
  lemma NewsAfterMore(h: Hub, w: Hub, r: Hub, tag: nat, ev: Event, inner: Event)
    requires News(h, w, tag, ev) && News(w.(broadcasts := w.broadcasts + 1), r, w.broadcasts, inner) && inner.PresenceChanged?
    ensures News(h, r, tag, ev)
    ensures forall i | |w.log| <= i < |r.log| :: r.log[i].broadcast >= w.broadcasts
  {
    forall i: nat | |h.log| <= i < |r.log| ensures Gained(h, r, tag, ev, i) {
      if i < |w.log| {
        assert Gained(h, w, tag, ev, i);
      } else {
        assert Gained(w.(broadcasts := w.broadcasts + 1), r, w.broadcasts, inner, i);
      }
    }
    forall i | |w.log| <= i < |r.log| ensures r.log[i].broadcast >= w.broadcasts {
      assert Gained(w.(broadcasts := w.broadcasts + 1), r, w.broadcasts, inner, i);
    }
  }

  lemma AfterMore(h: Hub, w: Hub, r: Hub, tag: nat, ev: Event, inner: Event, scope: Scope, order: bool, loud: bool)
    requires tag < h.broadcasts && Facts(h, w, tag, ev, scope, order, loud)
    requires News(w.(broadcasts := w.broadcasts + 1), r, w.broadcasts, inner) && inner.PresenceChanged?
    ensures Facts(h, r, tag, ev, scope, order && InOrder(r.log, |w.log|, scope), loud || |r.log| > |w.log|)
  {
    NewsAfterMore(h, w, r, tag, ev, inner);
    forall i | |h.log| <= i < |w.log| ensures w.log[i].broadcast < w.broadcasts {
      assert Gained(h, w, tag, ev, i);
    }
    OrderSplits(w.log, r.log, |h.log|, w.broadcasts, scope);
    LoudAfterMore(w.log, r.log, |h.log|, tag);
  }

  // A nested broadcast, and what it says about itself.
  ghost predicate Settled(env: Env, f: Farewell, scope: Scope) {
    && News(f.hub.(broadcasts := f.hub.broadcasts + 1), Say(env, f), f.hub.broadcasts, PresenceChanged(f.client.userId, false))
    && (InOrder(Say(env, f).log, |f.hub.log|, scope) <==> OrderlyFarewell(env, f, scope))
    && (Heard(env, f) <==> |Say(env, f).log| > |f.hub.log|)
  }

  lemma SameHistory(h: Hub, x: Hub, y: Hub, tag: nat, ev: Event, scope: Scope, order: bool, loud: bool)
    requires Facts(h, x, tag, ev, scope, order, loud) && y.log == x.log && y.broadcasts == x.broadcasts
    ensures Facts(h, y, tag, ev, scope, order, loud)
  {
    forall i: nat | |h.log| <= i < |y.log| ensures Gained(h, y, tag, ev, i) { assert Gained(h, x, tag, ev, i); }
  }

  // The turn of the client at position `n`.
  lemma AfterTurn(env: Env, h: Hub, p: Hub, audience: Audience, ev: Event, tag: nat, n: nat, scope: Scope, order: bool, loud: bool)
    requires tag < h.broadcasts && Facts(h, p, tag, ev, scope, order, loud)
    requires n < |p.entries| && Turn(p, audience, n)
    requires var f := Dropping(env, p, audience, ev, tag, n); f.Some? ==> Settled(env, f.value, scope)
    ensures var f := Dropping(env, p, audience, ev, tag, n);
      var late := Delivers(env, p, audience, n) && Watched(ev, scope) && loud;
      Facts(h, Serve(env, p, p.entries[n].client, ev, tag), tag, ev, scope,
            order && !late && (f.Some? ==> OrderlyFarewell(env, f.value, scope)), loud || (f.Some? && Heard(env, f.value)))
  {
    var id := p.entries[n].client.id;
    var (w, threw) := Write(env, p, tag, id, ev);
    AfterWrite(env, h, p, tag, id, ev, scope, order, loud);
    var late := Delivers(env, p, audience, n) && Watched(ev, scope) && loud;
    if threw {
      var f := FarewellOf(env, w, id);
      match f {
        case None => SameHistory(h, w, Unregister(env, w, id), tag, ev, scope, order && !late, loud);
        case Some(fw) =>
          SameHistory(h, w, fw.hub, tag, ev, scope, order && !late, loud);
          AfterMore(h, fw.hub, Say(env, fw), tag, ev, PresenceChanged(fw.client.userId, false), scope, order && !late, loud);
      }
    }
  }

  lemma LoopTurn(env: Env, h: Hub, audience: Audience, ev: Event, tag: nat, n: nat, scope: Scope, order: bool)
    requires tag < h.broadcasts && n < |h.entries|
    requires Facts(h, LoopAt(env, h, audience, ev, tag, n), tag, ev, scope, order, Spoken(env, h, audience, ev, tag, n))
    requires var f := Dropping(env, LoopAt(env, h, audience, ev, tag, n), audience, ev, tag, n); f.Some? ==> Settled(env, f.value, scope)
    ensures Facts(h, LoopAt(env, h, audience, ev, tag, n + 1), tag, ev, scope,
                  order && OrderlyAt(env, h, audience, ev, tag, n, scope), Spoken(env, h, audience, ev, tag, n + 1))
  {
    var p := LoopAt(env, h, audience, ev, tag, n);
    if Turn(p, audience, n) {
      AfterTurn(env, h, p, audience, ev, tag, n, scope, order, Spoken(env, h, audience, ev, tag, n));
    }
  }

  // A sequence of hubs, of which each has logged in order exactly if the one before has and `fits`
  // says so; `spoken` says of each whether it has logged anything of a later broadcast.
  lemma {:induction false} StagesInOrder(h: Hub, stage: nat -> Hub, fits: nat -> bool, spoken: nat -> bool,
                                         tag: nat, ev: Event, scope: Scope, n: nat)
    requires Facts(h, stage(0), tag, ev, scope, true, spoken(0))
    requires forall k: nat | k < n :: NextStage(h, stage(k), stage(k + 1), fits(k), spoken(k), spoken(k + 1), tag, ev, scope)
    ensures News(h, stage(n), tag, ev)
    ensures Loud(stage(n).log, |h.log|, tag) <==> spoken(n)
    ensures InOrder(stage(n).log, |h.log|, scope) <==> forall k: nat | k < n :: fits(k)
  {
    if n > 0 {
      StagesInOrder(h, stage, fits, spoken, tag, ev, scope, n - 1);
      assert NextStage(h, stage(n - 1), stage(n - 1 + 1), fits(n - 1), spoken(n - 1), spoken(n - 1 + 1), tag, ev, scope);
      assert stage(n - 1 + 1) == stage(n) && spoken(n - 1 + 1) == spoken(n);
    }
  }

  ghost predicate NextStage(h: Hub, p: Hub, next: Hub, fit: bool, spoken: bool, speaks: bool, tag: nat, ev: Event, scope: Scope) {
    News(h, p, tag, ev) && (Loud(p.log, |h.log|, tag) <==> spoken) ==>
      Facts(h, next, tag, ev, scope, InOrder(p.log, |h.log|, scope) && fit, speaks)
  }

  ghost function Stages(env: Env, h: Hub, audience: Audience, ev: Event, tag: nat): nat -> Hub {
    (k: nat) => if k <= |h.entries| then LoopAt(env, h, audience, ev, tag, k) else h
  }

  ghost function OrderlySteps(env: Env, h: Hub, audience: Audience, ev: Event, tag: nat, scope: Scope): nat -> bool {
    (k: nat) => k < |h.entries| && OrderlyAt(env, h, audience, ev, tag, k, scope)
  }

  ghost function SpokenAt(env: Env, h: Hub, audience: Audience, ev: Event, tag: nat): nat -> bool {
    (k: nat) => k <= |h.entries| && Spoken(env, h, audience, ev, tag, k)
  }

  lemma TurnIsStage(env: Env, h: Hub, audience: Audience, ev: Event, tag: nat, n: nat, scope: Scope)
    requires tag < h.broadcasts && n < |h.entries|
    requires var f := Dropping(env, LoopAt(env, h, audience, ev, tag, n), audience, ev, tag, n); f.Some? ==> Settled(env, f.value, scope)
    ensures NextStage(h, LoopAt(env, h, audience, ev, tag, n), LoopAt(env, h, audience, ev, tag, n + 1),
                      OrderlyAt(env, h, audience, ev, tag, n, scope),
                      Spoken(env, h, audience, ev, tag, n), Spoken(env, h, audience, ev, tag, n + 1), tag, ev, scope)
  {
    var p := LoopAt(env, h, audience, ev, tag, n);
    if News(h, p, tag, ev) && (Loud(p.log, |h.log|, tag) <==> Spoken(env, h, audience, ev, tag, n)) {
      LoopTurn(env, h, audience, ev, tag, n, scope, InOrder(p.log, |h.log|, scope));
    }
  }

  lemma {:induction false} NextTurnInOrderIff(env: Env, h: Hub, audience: Audience, ev: Event, tag: nat, n: nat, scope: Scope)
    requires tag < h.broadcasts && n < |h.entries|
    ensures NextStage(h, LoopAt(env, h, audience, ev, tag, n), LoopAt(env, h, audience, ev, tag, n + 1),
                      OrderlyAt(env, h, audience, ev, tag, n, scope),
                      Spoken(env, h, audience, ev, tag, n), Spoken(env, h, audience, ev, tag, n + 1), tag, ev, scope)
    decreases LiveCount(h.entries), 1, 0
  {
    var f := Dropping(env, LoopAt(env, h, audience, ev, tag, n), audience, ev, tag, n);
    if f.Some? {
      FarewellInOrderIff(env, f.value, scope);
    }
    TurnIsStage(env, h, audience, ev, tag, n, scope);
  }

  lemma OrderlyStepsIff(env: Env, h: Hub, audience: Audience, ev: Event, tag: nat, scope: Scope)
    ensures (forall k: nat | k < |h.entries| :: OrderlySteps(env, h, audience, ev, tag, scope)(k))
       <==> OrderlyUpTo(env, h, audience, ev, tag, |h.entries|, scope)
  {
    var fits := OrderlySteps(env, h, audience, ev, tag, scope);
    if forall k: nat | k < |h.entries| :: fits(k) {
      forall k: nat | k < |h.entries| ensures OrderlyAt(env, h, audience, ev, tag, k, scope) { assert fits(k); }
    }
  }

  lemma {:induction false} LoopInOrderIff(env: Env, h: Hub, audience: Audience, ev: Event, tag: nat, scope: Scope)
    requires tag < h.broadcasts
    ensures var r := Stages(env, h, audience, ev, tag)(|h.entries|);
      && News(h, r, tag, ev)
      && (InOrder(r.log, |h.log|, scope) <==> OrderlyUpTo(env, h, audience, ev, tag, |h.entries|, scope))
    decreases LiveCount(h.entries), 1, 1
  {
    var stage, fits, spoken := Stages(env, h, audience, ev, tag), OrderlySteps(env, h, audience, ev, tag, scope), SpokenAt(env, h, audience, ev, tag);
    forall k: nat | k < |h.entries|
      ensures NextStage(h, stage(k), stage(k + 1), fits(k), spoken(k), spoken(k + 1), tag, ev, scope)
    {
      NextTurnInOrderIff(env, h, audience, ev, tag, k, scope);
    }
    FactsAtStart(h, tag, ev, scope);
    StagesInOrder(h, stage, fits, spoken, tag, ev, scope, |h.entries|);
    OrderlyStepsIff(env, h, audience, ev, tag, scope);
  }

  lemma {:induction false} FarewellInOrderIff(env: Env, f: Farewell, scope: Scope)
    ensures Settled(env, f, scope)
    decreases LiveCount(f.hub.entries), 3, 0
  {
    HeardIff(env, f);
    BroadcastInOrderIff(env, f.hub, Group(TenantGroup(f.client.tenantId)), PresenceChanged(f.client.userId, false), scope);
  }

  // The events that one broadcast and its cascades deliver arrive in order exactly if no loop of the
  // cascade is overtaken.
  lemma {:induction false} BroadcastInOrderIff(env: Env, h: Hub, audience: Audience, ev: Event, scope: Scope)
    ensures News(h.(broadcasts := h.broadcasts + 1), Broadcast(env, h, audience, ev), h.broadcasts, ev)
    ensures InOrder(Broadcast(env, h, audience, ev).log, |h.log|, scope) <==> Orderly(env, h, audience, ev, scope)
    decreases LiveCount(h.entries), 2, 0
  {
    var b := h.(broadcasts := h.broadcasts + 1);
    LoopInOrderIff(env, b, audience, ev, h.broadcasts, scope);
    LoopEnds(env, b, audience, ev, h.broadcasts);
  }

  // ---------- whole runs ----------

  // The "Online" broadcast of a registration: the hub it starts in, if it is the user's first connection.
  function Welcome(env: Env, h: Hub, id: string, tenantId: string, userId: string, accessible: set<string>): Option<Hub> {
    if (userId in h.devices && h.devices[userId] != {}) || userId !in env.known then None
    else Some(Announce(Enroll(h, id, tenantId, userId, accessible), userId, true))
  }

  // No loop that the operation sets off is overtaken.
  ghost predicate OrderlyOp(env: Env, h: Hub, op: Op, scope: Scope) {
    match op
    case OpRegister(id, tenantId, userId, accessible) =>
      var w := Welcome(env, h, id, tenantId, userId, accessible);
      w.Some? ==> Orderly(env, w.value, Group(TenantGroup(tenantId)), PresenceChanged(userId, true), scope)
    case OpUnregister(id) => FarewellOf(env, h, id).Some? ==> OrderlyFarewell(env, FarewellOf(env, h, id).value, scope)
    case OpBroadcast(audience, ev) => Orderly(env, h, audience, ev, scope)
    case OpRegroup(_, _, _) => true
    case OpAppear(_) => true
  }

  ghost predicate OrderlyOpAt(start: Env, ops: seq<Op>, i: nat, scope: Scope)
    requires i < |ops|
  {
    OrderlyOp(EnvAt(start, ops, i), At(start, ops, i), ops[i], scope)
  }

  // From `h` to `r` the log gains deliveries of broadcasts started since.
  ghost predicate Fresher(h: Hub, r: Hub) {
    && Grown(h.log, r.log) && h.broadcasts <= r.broadcasts
    && forall i | |h.log| <= i < |r.log| :: h.broadcasts <= r.log[i].broadcast < r.broadcasts
  }

  lemma BroadcastFresher(env: Env, h: Hub, audience: Audience, ev: Event, scope: Scope)
    ensures Fresher(h, Broadcast(env, h, audience, ev))
    ensures InOrder(Broadcast(env, h, audience, ev).log, |h.log|, scope) <==> Orderly(env, h, audience, ev, scope)
  {
    var r := Broadcast(env, h, audience, ev);
    BroadcastInOrderIff(env, h, audience, ev, scope);
    forall i: nat | |h.log| <= i < |r.log| ensures h.broadcasts <= r.log[i].broadcast < r.broadcasts {
      assert Gained(h.(broadcasts := h.broadcasts + 1), r, h.broadcasts, ev, i);
    }
  }

  lemma AdmitInOrderIff(env: Env, h: Hub, id: string, tenantId: string, userId: string, accessible: set<string>, scope: Scope)
    ensures var r := Admit(env, h, id, tenantId, userId, accessible);
      Fresher(h, r) && (InOrder(r.log, |h.log|, scope) <==> OrderlyOp(env, h, OpRegister(id, tenantId, userId, accessible), scope))
  {
    var w := Welcome(env, h, id, tenantId, userId, accessible);
    if w.Some? {
      BroadcastFresher(env, w.value, Group(TenantGroup(tenantId)), PresenceChanged(userId, true), scope);
    }
  }

  // The first event on the new stream comes last.
  lemma HandshakeInOrder(env: Env, h: Hub, a: Hub, id: string, scope: Scope)
    requires Fresher(h, a)
    ensures var r := Handshake(env, a, id);
      Fresher(h, r) && (InOrder(r.log, |h.log|, scope) <==> InOrder(a.log, |h.log|, scope))
  {
    OrderSplits(a.log, Handshake(env, a, id).log, |h.log|, a.broadcasts, scope);
  }

  lemma UnregisterInOrderIff(env: Env, h: Hub, id: string, scope: Scope)
    ensures var r := Unregister(env, h, id);
      Fresher(h, r) && (InOrder(r.log, |h.log|, scope) <==> OrderlyOp(env, h, OpUnregister(id), scope))
  {
    var f := FarewellOf(env, h, id);
    if f.Some? {
      BroadcastFresher(env, f.value.hub, Group(TenantGroup(f.value.client.tenantId)), PresenceChanged(f.value.client.userId, false), scope);
    }
  }

  lemma StepInOrderIff(env: Env, h: Hub, op: Op, scope: Scope)
    ensures Fresher(h, Step(env, h, op))
    ensures InOrder(Step(env, h, op).log, |h.log|, scope) <==> OrderlyOp(env, h, op, scope)
  {
    match op {
      case OpRegister(id, tenantId, userId, accessible) =>
        AdmitInOrderIff(env, h, id, tenantId, userId, accessible, scope);
        HandshakeInOrder(env, h, Admit(env, h, id, tenantId, userId, accessible), id, scope);
      case OpUnregister(id) => UnregisterInOrderIff(env, h, id, scope);
      case OpBroadcast(audience, ev) => BroadcastFresher(env, h, audience, ev, scope);
      case OpRegroup(_, _, _) =>
      case OpAppear(_) =>
    }
  }

  ghost predicate Tagged(h: Hub) { forall i | 0 <= i < |h.log| :: h.log[i].broadcast < h.broadcasts }

  lemma MoreInOrder(h: Hub, r: Hub, scope: Scope)
    requires Tagged(h) && Fresher(h, r)
    ensures Tagged(r)
    ensures InOrder(r.log, 0, scope) <==> InOrder(h.log, 0, scope) && InOrder(r.log, |h.log|, scope)
  {
    OrderSplits(h.log, r.log, 0, h.broadcasts, scope);
  }

  ghost predicate OrderlyRun(start: Env, ops: seq<Op>, n: nat, scope: Scope)
    requires n <= |ops|
  {
    forall i: nat | i < n :: OrderlyOpAt(start, ops, i, scope)
  }

  ghost predicate NextHub(p: Hub, next: Hub, fit: bool, scope: Scope) {
    Tagged(p) ==> Tagged(next) && (InOrder(next.log, 0, scope) <==> InOrder(p.log, 0, scope) && fit)
  }

  lemma NextOpInOrderIff(start: Env, ops: seq<Op>, n: nat, scope: Scope)
    requires n < |ops|
    ensures NextHub(At(start, ops, n), At(start, ops, n + 1), OrderlyOpAt(start, ops, n, scope), scope)
  {
    var h := At(start, ops, n);
    StepInOrderIff(EnvAt(start, ops, n), h, ops[n], scope);
    if Tagged(h) {
      MoreInOrder(h, Step(EnvAt(start, ops, n), h, ops[n]), scope);
    }
  }

  // A sequence of hubs, of which each logs in order exactly if the one before does and `fits` says so.
  lemma {:induction false} HubsInOrder(hub: nat -> Hub, fits: nat -> bool, n: nat, scope: Scope)
    requires hub(0) == Empty
    requires forall k: nat | k < n :: NextHub(hub(k), hub(k + 1), fits(k), scope)
    ensures Tagged(hub(n)) && (InOrder(hub(n).log, 0, scope) <==> forall k: nat | k < n :: fits(k))
  {
    if n > 0 {
      HubsInOrder(hub, fits, n - 1, scope);
      assert NextHub(hub(n - 1), hub(n - 1 + 1), fits(n - 1), scope);
      assert hub(n - 1 + 1) == hub(n);
    }
  }

  ghost function Hubs(start: Env, ops: seq<Op>): nat -> Hub {
    (k: nat) => if k <= |ops| then At(start, ops, k) else Empty
  }

  ghost function Fits(start: Env, ops: seq<Op>, scope: Scope): nat -> bool {
    (k: nat) => k < |ops| && OrderlyOpAt(start, ops, k, scope)
  }

  lemma FitsIff(start: Env, ops: seq<Op>, scope: Scope)
    ensures (forall k: nat | k < |ops| :: Fits(start, ops, scope)(k)) <==> OrderlyRun(start, ops, |ops|, scope)
  {
    var fits := Fits(start, ops, scope);
    if forall k: nat | k < |ops| :: fits(k) {
      forall k: nat | k < |ops| ensures OrderlyOpAt(start, ops, k, scope) {
        assert fits(k);
      }
    }
  }

  // Over a whole run the events arrive in the order in which their broadcasts started exactly if no
  // loop of any operation is overtaken; for the presence events, no loop that announces presence.
  lemma RunInOrderIff(start: Env, ops: seq<Op>, scope: Scope)
    ensures InOrder(At(start, ops, |ops|).log, 0, scope) <==> OrderlyRun(start, ops, |ops|, scope)
  {
    var hub, fits := Hubs(start, ops), Fits(start, ops, scope);
    forall k: nat | k < |ops| ensures NextHub(hub(k), hub(k + 1), fits(k), scope) {
      NextOpInOrderIff(start, ops, k, scope);
    }
    HubsInOrder(hub, fits, |ops|, scope);
    FitsIff(start, ops, scope);
  }

  // ---------- loops that nothing overtakes ----------

  // The write at position `k` does not throw, if there is one.
  predicate SteadyAt(env: Env, h: Hub, audience: Audience, ev: Event, tag: nat, k: nat)
    requires k < |h.entries|
  {
    var p := LoopAt(env, h, audience, ev, tag, k);
    Turn(p, audience, k) ==> env.outcome(p.writes).Sent?
  }

  ghost predicate SteadyLoop(env: Env, h: Hub, audience: Audience, ev: Event, tag: nat) {
    forall k: nat | k < |h.entries| :: SteadyAt(env, h, audience, ev, tag, k)
  }

  ghost predicate Steady(env: Env, h: Hub, audience: Audience, ev: Event) {
    SteadyLoop(env, h.(broadcasts := h.broadcasts + 1), audience, ev, h.broadcasts)
  }

  lemma {:induction false} SteadySilent(env: Env, h: Hub, audience: Audience, ev: Event, tag: nat, n: nat)
    requires n <= |h.entries| && SteadyLoop(env, h, audience, ev, tag)
    ensures !Spoken(env, h, audience, ev, tag, n)
  {
    if n > 0 {
      SteadySilent(env, h, audience, ev, tag, n - 1);
      assert SteadyAt(env, h, audience, ev, tag, n - 1);
    }
  }

  lemma SteadyIsOrderly(env: Env, h: Hub, audience: Audience, ev: Event, scope: Scope)
    requires Steady(env, h, audience, ev)
    ensures Orderly(env, h, audience, ev, scope)
  {
    var b, tag := h.(broadcasts := h.broadcasts + 1), h.broadcasts;
    forall k: nat | k < |h.entries| ensures OrderlyAt(env, b, audience, ev, tag, k, scope) {
      assert SteadyAt(env, b, audience, ev, tag, k);
      SteadySilent(env, b, audience, ev, tag, k);
    }
  }

  ghost predicate SteadyFarewell(env: Env, f: Farewell) {
    Steady(env, f.hub, Group(TenantGroup(f.client.tenantId)), PresenceChanged(f.client.userId, false))
  }

  ghost predicate SteadyFarewellAt(env: Env, h: Hub, audience: Audience, ev: Event, tag: nat, k: nat)
    requires k < |h.entries|
  {
    var f := Dropping(env, LoopAt(env, h, audience, ev, tag, k), audience, ev, tag, k);
    f.Some? ==> SteadyFarewell(env, f.value)
  }

  ghost predicate SteadyInside(env: Env, h: Hub, audience: Audience, ev: Event, tag: nat) {
    forall k: nat | k < |h.entries| :: SteadyFarewellAt(env, h, audience, ev, tag, k)
  }

  // No write of a presence broadcast throws; those of other events may.
  ghost predicate PresenceSteady(env: Env, h: Hub, op: Op) {
    match op
    case OpRegister(id, tenantId, userId, accessible) =>
      var w := Welcome(env, h, id, tenantId, userId, accessible);
      w.Some? ==> Steady(env, w.value, Group(TenantGroup(tenantId)), PresenceChanged(userId, true))
    case OpUnregister(id) => FarewellOf(env, h, id).Some? ==> SteadyFarewell(env, FarewellOf(env, h, id).value)
    case OpBroadcast(audience, ev) =>
      if ev.PresenceChanged? then Steady(env, h, audience, ev)
      else SteadyInside(env, h.(broadcasts := h.broadcasts + 1), audience, ev, h.broadcasts)
    case OpRegroup(_, _, _) => true
    case OpAppear(_) => true
  }

  lemma SteadyFarewells(env: Env, h: Hub, audience: Audience, ev: Event, tag: nat, k: nat)
    requires k < |h.entries| && !ev.PresenceChanged? && SteadyInside(env, h, audience, ev, tag)
    ensures OrderlyAt(env, h, audience, ev, tag, k, PresenceEvents)
  {
    assert SteadyFarewellAt(env, h, audience, ev, tag, k);
    var f := Dropping(env, LoopAt(env, h, audience, ev, tag, k), audience, ev, tag, k);
    if f.Some? {
      SteadyFarewellIsOrderly(env, f.value);
    }
  }

  lemma SteadyFarewellIsOrderly(env: Env, f: Farewell)
    requires SteadyFarewell(env, f)
    ensures OrderlyFarewell(env, f, PresenceEvents)
  {
    SteadyIsOrderly(env, f.hub, Group(TenantGroup(f.client.tenantId)), PresenceChanged(f.client.userId, false), PresenceEvents);
  }

  lemma PresenceSteadyIsOrderly(env: Env, h: Hub, op: Op)
    requires PresenceSteady(env, h, op)
    ensures OrderlyOp(env, h, op, PresenceEvents)
  {
    match op {
      case OpRegister(id, tenantId, userId, accessible) =>
        var w := Welcome(env, h, id, tenantId, userId, accessible);
        if w.Some? {
          SteadyIsOrderly(env, w.value, Group(TenantGroup(tenantId)), PresenceChanged(userId, true), PresenceEvents);
        }
      case OpUnregister(id) =>
        if FarewellOf(env, h, id).Some? {
          SteadyFarewellIsOrderly(env, FarewellOf(env, h, id).value);
        }
      case OpBroadcast(audience, ev) =>
        if ev.PresenceChanged? {
          SteadyIsOrderly(env, h, audience, ev, PresenceEvents);
        } else {
          var b := h.(broadcasts := h.broadcasts + 1);
          forall k: nat | k < |h.entries| ensures OrderlyAt(env, b, audience, ev, h.broadcasts, k, PresenceEvents) {
            SteadyFarewells(env, b, audience, ev, h.broadcasts, k);
          }
        }
      case OpRegroup(_, _, _) =>
      case OpAppear(_) =>
    }
  }

  // In particular the presence events arrive in order over every run in which no write of a presence
  // broadcast throws, whatever happens to the writes of other events.
  lemma SteadyRunInOrder(start: Env, ops: seq<Op>)
    requires forall i: nat | i < |ops| :: PresenceSteady(EnvAt(start, ops, i), At(start, ops, i), ops[i])
    ensures InOrder(At(start, ops, |ops|).log, 0, PresenceEvents)
  {
    forall i: nat | i < |ops| ensures OrderlyOpAt(start, ops, i, PresenceEvents) {
      PresenceSteadyIsOrderly(EnvAt(start, ops, i), At(start, ops, i), ops[i]);
    }
    RunInOrderIff(start, ops, PresenceEvents);
  }

  // ---------- broadcasts to a tenant ----------

  lemma FarewellKeeps(env: Env, h: Hub, id: string)
    requires Inv(env, h) && FarewellOf(env, h, id).Some?
    ensures Inv(env, FarewellOf(env, h, id).value.hub)
  {
    var k := Find(h.entries, id);
    RemovalIndexed(h, k);
    AnnounceKeeps(env, Removed(h, k), h.entries[k].client.userId, false);
  }

  lemma {:induction false} LoopKeeps(env: Env, h: Hub, audience: Audience, ev: Event, tag: nat, j: nat)
    requires Inv(env, h) && tag < h.broadcasts && j <= |h.entries|
    ensures Inv(env, LoopAt(env, h, audience, ev, tag, j)) && tag < LoopAt(env, h, audience, ev, tag, j).broadcasts
  {
    if j > 0 {
      LoopKeeps(env, h, audience, ev, tag, j - 1);
      var p := LoopAt(env, h, audience, ev, tag, j - 1);
      if Turn(p, audience, j - 1) {
        ServeKeeps(env, p, p.entries[j - 1].client, ev, tag);
      }
    }
  }

  lemma {:induction false} LoopTags(env: Env, h: Hub, audience: Audience, ev: Event, tag: nat, j: nat)
    requires tag < h.broadcasts && j <= |h.entries|
    ensures tag < LoopAt(env, h, audience, ev, tag, j).broadcasts
  {
    if j > 0 {
      LoopTags(env, h, audience, ev, tag, j - 1);
      LoopCascadesNext(env, h, audience, ev, tag, j);
    }
  }

  lemma LoopCascadesNext(env: Env, h: Hub, audience: Audience, ev: Event, tag: nat, k: nat)
    requires 0 < k <= |h.entries| && tag < LoopAt(env, h, audience, ev, tag, k - 1).broadcasts
    ensures Cascaded(LoopAt(env, h, audience, ev, tag, k - 1), LoopAt(env, h, audience, ev, tag, k), tag)
  {
    var p := LoopAt(env, h, audience, ev, tag, k - 1);
    if Turn(p, audience, k - 1) {
      ServeCascades(env, p, p.entries[k - 1].client, ev, tag);
    }
  }

  // The loop makes holes and nothing else: a connection found at its turn was there before.
  lemma {:induction false} StillThere(env: Env, h: Hub, audience: Audience, ev: Event, tag: nat, j: nat, k: nat, i: nat)
    requires tag < h.broadcasts && j <= k <= |h.entries| && i < |h.entries| && LoopAt(env, h, audience, ev, tag, k).entries[i].Live?
    ensures LoopAt(env, h, audience, ev, tag, j).entries[i] == LoopAt(env, h, audience, ev, tag, k).entries[i]
    decreases k
  {
    if j < k {
      LoopTags(env, h, audience, ev, tag, k - 1);
      LoopCascadesNext(env, h, audience, ev, tag, k);
      StillThere(env, h, audience, ev, tag, j, k - 1, i);
    }
  }

  lemma ReceivedIsNew(before: seq<Delivery>, after: seq<Delivery>, tag: nat, id: string)
    requires before <= after && Received(after, tag, id) > 0
    requires forall i | 0 <= i < |before| :: before[i].broadcast < tag
    ensures |after| > |before|
  {
    ReceivedElsewhere(before, 0, tag, id);
    assert |after| == |before| ==> after == before;
  }

  // A listener that comes through a nested broadcast has heard it.
  lemma HeardByListener(env: Env, f: Farewell, k: nat)
    requires Inv(env, f.hub) && k < |f.hub.entries| && Say(env, f).entries[k].Live?
    requires f.hub.entries[k].Live? && TenantGroup(f.client.tenantId) in f.hub.entries[k].client.groups
    ensures Heard(env, f)
  {
    var group, ev := TenantGroup(f.client.tenantId), PresenceChanged(f.client.userId, false);
    MemberReceives(env, f.hub, group, ev, k);
    BroadcastCascades(env, f.hub, Group(group), ev, 0);
    ReceivedIsNew(f.hub.log, Say(env, f).log, f.hub.broadcasts, f.hub.entries[k].client.id);
    HeardIff(env, f);
  }

  // The write at position `j` throws and takes a known user's last connection away.
  predicate LosesUserAt(env: Env, h: Hub, audience: Audience, ev: Event, tag: nat, j: nat)
    requires j < |h.entries|
  {
    Dropping(env, LoopAt(env, h, audience, ev, tag, j), audience, ev, tag, j).Some?
  }

  lemma FarewellRemoves(env: Env, h: Hub, id: string, j: nat)
    requires UniqueIds(h.entries) && j < |h.entries| && h.entries[j].Live? && h.entries[j].client.id == id
    requires FarewellOf(env, h, id).Some?
    ensures FarewellOf(env, h, id).value.client == h.entries[j].client
    ensures FarewellOf(env, h, id).value.hub.entries == h.entries[j := Hole]
  {
  }

  lemma LossKeeps(env: Env, p: Hub, audience: Audience, ev: Event, tag: nat, j: nat)
    requires Inv(env, p) && tag < p.broadcasts && j < |p.entries| && Dropping(env, p, audience, ev, tag, j).Some?
    ensures Inv(env, Dropping(env, p, audience, ev, tag, j).value.hub)
  {
    var c := p.entries[j].client;
    WriteKeeps(env, p, tag, c.id, ev);
    FarewellKeeps(env, Write(env, p, tag, c.id, ev).0, c.id);
  }

  lemma LosesUser(env: Env, h: Hub, audience: Audience, ev: Event, tag: nat, j: nat)
    requires Inv(env, h) && tag < h.broadcasts && j < |h.entries| && LosesUserAt(env, h, audience, ev, tag, j)
    ensures var p := LoopAt(env, h, audience, ev, tag, j);
      var f := Dropping(env, p, audience, ev, tag, j).value;
      && Inv(env, f.hub) && f.client == p.entries[j].client
      && LoopAt(env, h, audience, ev, tag, j + 1) == Say(env, f)
      && f.hub.entries == p.entries[j := Hole]
  {
    LoopKeeps(env, h, audience, ev, tag, j);
    var p := LoopAt(env, h, audience, ev, tag, j);
    LossKeeps(env, p, audience, ev, tag, j);
    FarewellRemoves(env, Write(env, p, tag, p.entries[j].client.id, ev).0, p.entries[j].client.id, j);
  }

  lemma HeardAfterLoss(env: Env, h: Hub, audience: Audience, ev: Event, tag: nat, j: nat, k: nat)
    requires Inv(env, h) && tag < h.broadcasts && j < |h.entries| && k < |h.entries| && j != k
    requires LosesUserAt(env, h, audience, ev, tag, j) && LoopAt(env, h, audience, ev, tag, j + 1).entries[k].Live?
    requires var p := LoopAt(env, h, audience, ev, tag, j);
      p.entries[k].Live? && TenantGroup(p.entries[j].client.tenantId) in p.entries[k].client.groups
    ensures SpeaksAt(env, h, audience, ev, tag, j)
  {
    LosesUser(env, h, audience, ev, tag, j);
    HeardByListener(env, Dropping(env, LoopAt(env, h, audience, ev, tag, j), audience, ev, tag, j).value, k);
  }

  // A later listener that belongs to the tenant of the lost user has heard of the loss.
  lemma LossIsHeard(env: Env, h: Hub, audience: Audience, ev: Event, tag: nat, j: nat, k: nat)
    requires Inv(env, h) && tag < h.broadcasts && j < k < |h.entries| && LosesUserAt(env, h, audience, ev, tag, j)
    requires var p := LoopAt(env, h, audience, ev, tag, k);
      p.entries[k].Live? && TenantGroup(LoopAt(env, h, audience, ev, tag, j).entries[j].client.tenantId) in p.entries[k].client.groups
    ensures SpeaksAt(env, h, audience, ev, tag, j)
  {
    StillThere(env, h, audience, ev, tag, j, k, k);
    StillThere(env, h, audience, ev, tag, j + 1, k, k);
    HeardAfterLoss(env, h, audience, ev, tag, j, k);
  }

  predicate SpeaksBefore(env: Env, h: Hub, audience: Audience, ev: Event, tag: nat, n: nat)
    requires n <= |h.entries|
  {
    exists j: nat | j < n :: SpeaksAt(env, h, audience, ev, tag, j)
  }

  lemma SpeaksBeforeNext(env: Env, h: Hub, audience: Audience, ev: Event, tag: nat, n: nat)
    requires n < |h.entries|
    ensures SpeaksBefore(env, h, audience, ev, tag, n + 1)
       <==> SpeaksBefore(env, h, audience, ev, tag, n) || SpeaksAt(env, h, audience, ev, tag, n)
  {
    if SpeaksBefore(env, h, audience, ev, tag, n + 1) {
      var j: nat :| j < n + 1 && SpeaksAt(env, h, audience, ev, tag, j);
      assert j < n ==> SpeaksBefore(env, h, audience, ev, tag, n);
    }
    if SpeaksBefore(env, h, audience, ev, tag, n) {
      var j: nat :| j < n && SpeaksAt(env, h, audience, ev, tag, j);
      assert SpeaksBefore(env, h, audience, ev, tag, n + 1);
    }
  }

  lemma {:induction false} SpokenIff(env: Env, h: Hub, audience: Audience, ev: Event, tag: nat, n: nat)
    requires n <= |h.entries|
    ensures Spoken(env, h, audience, ev, tag, n) <==> SpeaksBefore(env, h, audience, ev, tag, n)
  {
    if n > 0 {
      SpokenIff(env, h, audience, ev, tag, n - 1);
      SpeaksBeforeNext(env, h, audience, ev, tag, n - 1);
    }
  }

  // The turn at position `j`: the write throws, and the connection is the last one of a known user.
  ghost predicate LastThrows(env: Env, p: Hub, audience: Audience, j: nat)
    requires j < |p.entries|
  {
    && Turn(p, audience, j) && !env.outcome(p.writes).Sent?
    && var c := p.entries[j].client; c.userId in env.known && DeviceIds(p.entries, c.userId) == {c.id}
  }

  lemma {:induction false} DroppingIff(env: Env, p: Hub, audience: Audience, ev: Event, tag: nat, j: nat)
    requires Indexed(p) && j < |p.entries|
    ensures Dropping(env, p, audience, ev, tag, j).Some? <==> LastThrows(env, p, audience, j)
  {
    if Turn(p, audience, j) {
      var c := p.entries[j].client;
      FarewellIff(env, Write(env, p, tag, c.id, ev).0, j);
    }
  }

  lemma {:induction false} FarewellIff(env: Env, h: Hub, j: nat)
    requires Indexed(h) && j < |h.entries| && h.entries[j].Live?
    ensures var c := h.entries[j].client;
      FarewellOf(env, h, c.id).Some? <==> c.userId in env.known && DeviceIds(h.entries, c.userId) == {c.id}
  {
    var c := h.entries[j].client;
    assert Find(h.entries, c.id) == j;
    assert c.id in DeviceIds(h.entries, c.userId);
    assert h.devices[c.userId] - {c.id} == {} <==> h.devices[c.userId] == {c.id};
  }

  // At position `j` a known user's last connection is lost, and one of the writes gets through that
  // the farewell makes for as long as none does.
  ghost predicate LossHeardAt(env: Env, h: Hub, audience: Audience, ev: Event, tag: nat, j: nat)
    requires j < |h.entries|
  {
    var p := LoopAt(env, h, audience, ev, tag, j);
    var f := Dropping(env, p, audience, ev, tag, j);
    LastThrows(env, p, audience, j) && f.Some? && GetsThrough(env, f.value.hub.writes, Say(Deaf(env), f.value).writes)
  }

  ghost predicate LossHeardBefore(env: Env, h: Hub, audience: Audience, ev: Event, tag: nat, k: nat)
    requires k <= |h.entries|
  {
    exists j: nat | j < k :: LossHeardAt(env, h, audience, ev, tag, j)
  }

  lemma SpeaksIff(env: Env, h: Hub, audience: Audience, ev: Event, tag: nat, j: nat)
    requires Inv(env, h) && tag < h.broadcasts && j < |h.entries|
    ensures SpeaksAt(env, h, audience, ev, tag, j) <==> LossHeardAt(env, h, audience, ev, tag, j)
  {
    LoopKeeps(env, h, audience, ev, tag, j);
    DroppingIff(env, LoopAt(env, h, audience, ev, tag, j), audience, ev, tag, j);
  }

  lemma SpokenIsHeard(env: Env, h: Hub, audience: Audience, ev: Event, tag: nat, k: nat)
    requires Inv(env, h) && tag < h.broadcasts && k <= |h.entries|
    ensures Spoken(env, h, audience, ev, tag, k) <==> LossHeardBefore(env, h, audience, ev, tag, k)
  {
    SpokenIff(env, h, audience, ev, tag, k);
    if SpeaksBefore(env, h, audience, ev, tag, k) {
      var j: nat :| j < k && SpeaksAt(env, h, audience, ev, tag, j);
      SpeaksIff(env, h, audience, ev, tag, j);
    }
    if LossHeardBefore(env, h, audience, ev, tag, k) {
      var j: nat :| j < k && LossHeardAt(env, h, audience, ev, tag, j);
      SpeaksIff(env, h, audience, ev, tag, j);
    }
  }

  // In any broadcast an event is overtaken exactly if it gets through after a write that threw took
  // some known user's last connection away, and the farewell to that user was heard.
  lemma OvertakenIff(env: Env, h: Hub, audience: Audience, ev: Event, tag: nat, k: nat, scope: Scope)
    requires Inv(env, h) && tag < h.broadcasts && k < |h.entries|
    ensures var late := Delivers(env, LoopAt(env, h, audience, ev, tag, k), audience, k) && LossHeardBefore(env, h, audience, ev, tag, k);
      OvertakenAt(env, h, audience, ev, tag, k, scope) <==> Watched(ev, scope) && late
  {
    SpokenIsHeard(env, h, audience, ev, tag, k);
  }

  // The farewell is heard in particular if the later listener is in the lost user's tenant itself, as
  // in the presence broadcasts of a tenant that nobody from outside has joined.
  lemma LossOvertakes(env: Env, h: Hub, audience: Audience, ev: Event, tag: nat, j: nat, k: nat, scope: Scope)
    requires Inv(env, h) && tag < h.broadcasts && j < k < |h.entries| && Watched(ev, scope)
    requires LastThrows(env, LoopAt(env, h, audience, ev, tag, j), audience, j)
    requires var p := LoopAt(env, h, audience, ev, tag, k);
      Delivers(env, p, audience, k)
      && TenantGroup(LoopAt(env, h, audience, ev, tag, j).entries[j].client.tenantId) in p.entries[k].client.groups
    ensures OvertakenAt(env, h, audience, ev, tag, k, scope)
  {
    LoopKeeps(env, h, audience, ev, tag, j);
    DroppingIff(env, LoopAt(env, h, audience, ev, tag, j), audience, ev, tag, j);
    LossIsHeard(env, h, audience, ev, tag, j, k);
    SpokenIff(env, h, audience, ev, tag, k);
    assert SpeaksBefore(env, h, audience, ev, tag, k);
  }

  // A loss that nobody hears of delays nothing: `x` of another tenant has joined the group, its write
  // throws, its own tenant has no other listener, and `y` is served in time.
  lemma ForeignLossIsSilent(env: Env, h: Hub, x: Client, y: Client, group: string, ev: Event, tag: nat)
    requires Inv(env, h) && tag < h.broadcasts && h.entries == [Live(x), Live(y)] && x.userId != y.userId
    requires group in x.groups && group in y.groups && TenantGroup(x.tenantId) !in y.groups && x.userId in env.known
    requires env.outcome(h.writes).Threw? && env.outcome(h.writes + 1).Sent?
    ensures LastThrows(env, LoopAt(env, h, Group(group), ev, tag, 0), Group(group), 0)
    ensures Delivers(env, LoopAt(env, h, Group(group), ev, tag, 1), Group(group), 1)
    ensures !OvertakenAt(env, h, Group(group), ev, tag, 1, AllEvents)
  {
    assert h.entries[0] == Live(x) && h.entries[1] == Live(y);
    assert DeviceIds(h.entries, x.userId) == {x.id};
    var f := Dropping(env, h, Group(group), ev, tag, 0);
    DroppingIff(env, h, Group(group), ev, tag, 0);
    assert LoopAt(env, h, Group(group), ev, tag, 0) == h;
    assert f.value.hub.entries == [Hole, Live(y)];
    Unheard(env, f.value, y);
    Unheard(Deaf(env), f.value, y);
    assert LoopAt(env, h, Group(group), ev, tag, 1) == Say(env, f.value);
    assert !SpeaksAt(env, h, Group(group), ev, tag, 0);
    assert !Spoken(env, h, Group(group), ev, tag, 0);
  }

  lemma Unheard(env: Env, f: Farewell, y: Client)
    requires f.hub.entries == [Hole, Live(y)] && TenantGroup(f.client.tenantId) !in y.groups
    ensures Say(env, f) == f.hub.(broadcasts := f.hub.broadcasts + 1)
  {
    var b, group, ev := f.hub.(broadcasts := f.hub.broadcasts + 1), Group(TenantGroup(f.client.tenantId)), PresenceChanged(f.client.userId, false);
    assert BroadcastFrom(env, b, group, ev, f.hub.broadcasts, 2) == b;
    assert BroadcastFrom(env, b, group, ev, f.hub.broadcasts, 1) == b;
    assert BroadcastFrom(env, b, group, ev, f.hub.broadcasts, 0) == b;
  }

  // ---------- it does happen ----------

  // Three entries of which the first is gone: a broadcast to the tenant serves the two others.
  lemma ServeTwo(env: Env, h: Hub, d: Client, c: Client, group: string, ev: Event, tag: nat)
    requires h.entries == [Hole, Live(d), Live(c)] && group in d.groups && group in c.groups
    ensures BroadcastFrom(env, h, Group(group), ev, tag, 0)
         == BroadcastFrom(env, Serve(env, h, d, ev, tag), Group(group), ev, tag, 2)
  {
    assert BroadcastFrom(env, h, Group(group), ev, tag, 0) == BroadcastFrom(env, h, Group(group), ev, tag, 1);
  }

  lemma ServeLast(env: Env, h: Hub, c: Client, group: string, ev: Event, tag: nat)
    requires |h.entries| == 3 && h.entries[2] == Live(c) && group in c.groups
    ensures BroadcastFrom(env, h, Group(group), ev, tag, 2) == Serve(env, h, c, ev, tag)
  {
    var s := Serve(env, h, c, ev, tag);
    assert BroadcastFrom(env, s, Group(group), ev, tag, 3) == s;
  }

  lemma ServeMiddle(env: Env, h: Hub, d: Client, group: string, ev: Event, tag: nat, i: nat)
    requires h.entries == [Hole, Live(d), Hole] && group in d.groups && i <= 1
    requires env.outcome(h.writes).Sent?
    ensures BroadcastFrom(env, h, Group(group), ev, tag, i)
         == h.(log := h.log + [Delivery(tag, d.id, ev)], writes := h.writes + 1)
  {
    if i == 0 {
      assert BroadcastFrom(env, h, Group(group), ev, tag, 0) == BroadcastFrom(env, h, Group(group), ev, tag, 1);
    }
    var s := Serve(env, h, d, ev, tag);
    assert BroadcastFrom(env, s, Group(group), ev, tag, 2) == BroadcastFrom(env, s, Group(group), ev, tag, 3) == s;
  }

  // Serving a client whose write throws and who has no other connection.
  lemma ServeLosesUser(env: Env, h: Hub, k: nat, c: Client, ev: Event, tag: nat)
    requires k == Find(h.entries, c.id) < |h.entries| && h.entries[k] == Live(c)
    requires c.userId in env.known && c.userId in h.devices && h.devices[c.userId] == {c.id}
    requires env.outcome(h.writes).Threw?
    ensures Serve(env, h, c, ev, tag)
      == Broadcast(env,
           Announce(h.(entries := h.entries[k := Hole], devices := h.devices - {c.userId}, writes := h.writes + 1), c.userId, false),
           Group(TenantGroup(c.tenantId)), PresenceChanged(c.userId, false))
  {
    assert h.devices[c.userId] - {c.id} == {};
  }

  // The inner cascade: `d` hears about `gone`, then the write to `c` fails, and `d` hears about `c`.
  lemma InnerCascade(env: Env, h: Hub, d: Client, c: Client, gone: string)
    requires h.entries == [Hole, Live(d), Live(c)] && d.id != c.id
    requires TenantGroup(c.tenantId) in d.groups && TenantGroup(c.tenantId) in c.groups
    requires c.userId in env.known && c.userId in h.devices && h.devices[c.userId] == {c.id}
    requires env.outcome(h.writes).Sent? && env.outcome(h.writes + 1).Threw? && env.outcome(h.writes + 2).Sent?
    ensures var r := Broadcast(env, h, Group(TenantGroup(c.tenantId)), PresenceChanged(gone, false));
      && r.entries == [Hole, Live(d), Hole]
      && r.devices == h.devices - {c.userId}
      && r.writes == h.writes + 3
      && r.log == h.log + [Delivery(h.broadcasts, d.id, PresenceChanged(gone, false)),
                           Delivery(h.broadcasts + 1, d.id, PresenceChanged(c.userId, false))]
  {
    var t := TenantGroup(c.tenantId);
    var b := h.(broadcasts := h.broadcasts + 1);
    ServeTwo(env, b, d, c, t, PresenceChanged(gone, false), h.broadcasts);
    var h1 := b.(log := h.log + [Delivery(h.broadcasts, d.id, PresenceChanged(gone, false))], writes := h.writes + 1);
    assert Serve(env, b, d, PresenceChanged(gone, false), h.broadcasts) == h1;
    ServeLast(env, h1, c, t, PresenceChanged(gone, false), h.broadcasts);
    ServeLosesUser(env, h1, 2, c, PresenceChanged(gone, false), h.broadcasts);
    var h2 := Announce(h1.(entries := h1.entries[2 := Hole], devices := h1.devices - {c.userId}, writes := h.writes + 2), c.userId, false);
    assert h2.entries == [Hole, Live(d), Hole];
    ServeMiddle(env, h2.(broadcasts := h.broadcasts + 2), d, t, PresenceChanged(c.userId, false), h.broadcasts + 1, 0);
  }

  // Announcements alternate when they are made, but a cascade can deliver them out of order. Let
  // `x` and `d` be registered and let a new user connect. If the write to `x` fails, and then the
  // write to the new connection inside that cascade fails, `d` hears "Offline" about the new user
  // first and "Online" last, although that user has no connection left.
  lemma ArrivalOrderCanLag(env: Env, h: Hub, x: Client, d: Client, id: string, userId: string)
    requires Inv(env, h) && h.entries == [Live(x), Live(d)] && Fresh(h, id)
    requires x.userId != d.userId && userId != x.userId && userId != d.userId
    requires x.userId in env.known && userId in env.known
    requires TenantGroup(x.tenantId) in x.groups && TenantGroup(x.tenantId) in d.groups
    requires env.outcome(h.writes).Threw? && env.outcome(h.writes + 1).Sent? && env.outcome(h.writes + 2).Threw?
    requires env.outcome(h.writes + 3).Sent? && env.outcome(h.writes + 4).Sent?
    ensures var r := Admit(env, h, id, x.tenantId, userId, {});
      && r.entries == [Hole, Live(d), Hole]
      && userId !in r.devices
      && r.log == h.log + [Delivery(h.broadcasts + 1, d.id, PresenceChanged(x.userId, false)),
                           Delivery(h.broadcasts + 2, d.id, PresenceChanged(userId, false)),
                           Delivery(h.broadcasts, d.id, PresenceChanged(userId, true))]
  {
    var t := TenantGroup(x.tenantId);
    var c := Client(id, x.tenantId, userId, {UserGroup(userId), t} + {});
    var b := Announce(Enroll(h, id, x.tenantId, userId, {}), userId, true).(broadcasts := h.broadcasts + 1);
    TwoUsers(env, h, x, d, id, userId);
    // The loop of the "Online" broadcast reaches `x` first.
    ServeLosesUser(env, b, 0, x, PresenceChanged(userId, true), h.broadcasts);
    var h2 := Announce(b.(entries := b.entries[0 := Hole], devices := b.devices - {x.userId}, writes := h.writes + 1), x.userId, false);
    assert h2.entries == [Hole, Live(d), Live(c)];
    InnerCascade(env, h2, d, c, x.userId);
    // Back in the first loop, `d` still gets the old news.
    var s := Serve(env, b, x, PresenceChanged(userId, true), h.broadcasts);
    ServeMiddle(env, s, d, t, PresenceChanged(userId, true), h.broadcasts, 1);
    FirstServed(env, b, x, t, PresenceChanged(userId, true), h.broadcasts);
    assert Admit(env, h, id, x.tenantId, userId, {}) == BroadcastFrom(env, b, Group(t), PresenceChanged(userId, true), h.broadcasts, 0);
  }

  lemma FirstServed(env: Env, h: Hub, x: Client, group: string, ev: Event, tag: nat)
    requires |h.entries| > 0 && h.entries[0] == Live(x) && group in x.groups
    ensures BroadcastFrom(env, h, Group(group), ev, tag, 0) == BroadcastFrom(env, Serve(env, h, x, ev, tag), Group(group), ev, tag, 1)
  {
  }

  lemma TwoUsers(env: Env, h: Hub, x: Client, d: Client, id: string, userId: string)
    requires Inv(env, h) && h.entries == [Live(x), Live(d)] && Fresh(h, id)
    requires x.userId != d.userId && userId != x.userId && userId != d.userId
    ensures x.id != d.id && x.id != id && d.id != id
    ensures userId !in h.devices && x.userId in h.devices && h.devices[x.userId] == {x.id}
    ensures var e := Enroll(h, id, x.tenantId, userId, {});
      && e.devices == h.devices[userId := {id}]
      && e.entries == [Live(x), Live(d), Live(Client(id, x.tenantId, userId, {UserGroup(userId), TenantGroup(x.tenantId)} + {}))]
  {
    var none: set<string> := {};
    assert none + {id} == {id};
    assert h.entries[0] == Live(x) && h.entries[1] == Live(d);
    assert DeviceIds(h.entries, x.userId) == {x.id};
    assert DeviceIds(h.entries, userId) == {};
  }
}
