/**
 The message log of server/routes/messages.ts: posting, soft deletion and the thread view. A post
 pushes its message, awaits the database, and only then remembers the client's id and bumps the
 counter of the thread root, so other requests run in between.
 */
module MessageThreads {
  import opened Wrappers

  type Id = nat

  // `client` is the clientMessageId of the request; the server does not keep it in the message,
  // it is here for the statements about repeated requests.
  datatype Message = Message(
    id: Id, tenantId: nat, target: nat, parent: Option<Id>, root: Option<Id>,
    deleted: bool, repliesCount: nat, createdAt: int, client: Option<nat>)

  // A post that waits for the database.
  datatype Write = Write(id: Id, root: Option<Id>, client: Option<nat>)

  datatype Seen = Seen(id: Id, at: int)

  datatype Log = Log(messages: seq<Message>, writes: seq<Write>, processed: map<nat, Seen>)

  datatype Answer = Created(message: Message) | Duplicate(message: Message) | NotFound

  datatype Draft = Draft(id: Id, tenantId: nat, target: nat, parent: Option<Id>, client: Option<nat>, now: int)

  // ---------- the handlers ----------

  function Find(ms: seq<Message>, p: Message -> bool): (r: Option<nat>)
    ensures r.Some? ==> r.value < |ms| && p(ms[r.value]) && forall j | 0 <= j < r.value :: !p(ms[j])
    ensures r.None? ==> forall j | 0 <= j < |ms| :: !p(ms[j])
  {
    if ms == [] then None
    else
      var earlier := Find(ms[..|ms| - 1], p);
      if earlier.Some? then earlier
      else if p(ms[|ms| - 1]) then Some(|ms| - 1)
      else None
  }

  function RootFrom(parent: Message): Option<Id> {
    if parent.root.Some? then parent.root else Some(parent.id)
  }

  function Compose(d: Draft, root: Option<Id>): Message {
    Message(d.id, d.tenantId, d.target, d.parent, root, false, 0, d.now, d.client)
  }

  // The message this clientMessageId has already produced.
  function Earlier(log: Log, client: Option<nat>): Option<nat> {
    if client.Some? && client.value in log.processed then
      var id := log.processed[client.value].id;
      Find(log.messages, (m: Message) => m.id == id)
    else None
  }

  function ParentOf(ms: seq<Message>, d: Draft): Option<nat> {
    if d.parent.None? then None
    else Find(ms, (m: Message) => m.id == d.parent.value && m.tenantId == d.tenantId && !m.deleted)
  }

  function Push(log: Log, d: Draft, root: Option<Id>): Log {
    log.(messages := Add(log.messages, Compose(d, root)), writes := Add(log.writes, Write(d.id, root, d.client)))
  }

  // From the idempotency check to the `await` of the database: one step.
  function Post(log: Log, d: Draft): (Log, Answer) {
    var earlier := Earlier(log, d.client);
    if earlier.Some? then (log, Duplicate(log.messages[earlier.value]))
    else if d.parent.None? then (Push(log, d, None), Created(Compose(d, None)))
    else
      var p := ParentOf(log.messages, d);
      if p.None? then (log, NotFound)
      else
        var root := RootFrom(log.messages[p.value]);
        (Push(log, d, root), Created(Compose(d, root)))
  }

  function Bump(ms: seq<Message>, root: Option<Id>): seq<Message> {
    if root.None? then ms
    else
      var i := Find(ms, (m: Message) => m.id == root.value);
      if i.None? then ms else ms[i.value := ms[i.value].(repliesCount := ms[i.value].repliesCount + 1)]
  }

  // The rest of the `k`-th waiting post.
  function Finish(log: Log, k: nat, now: int): Log
    requires k < |log.writes|
  {
    var w := log.writes[k];
    Log(Bump(log.messages, w.root),
        RemoveAt(log.writes, k),
        if w.client.Some? then log.processed[w.client.value := Seen(w.id, now)] else log.processed)
  }

  function Delete(log: Log, id: Id, tenantId: nat): Log {
    var i := Find(log.messages, (m: Message) => m.id == id && m.tenantId == tenantId);
    if i.None? then log else log.(messages := log.messages[i.value := log.messages[i.value].(deleted := true)])
  }

  const RETENTION := 30 * 60 * 1000

  function Sweep(log: Log, now: int): Log {
    log.(processed := map c | c in log.processed && log.processed[c].at >= now - RETENTION :: log.processed[c])
  }

  function Filter(ms: seq<Message>, p: Message -> bool): seq<Message> {
    if ms == [] then []
    else
      var kept := Filter(ms[..|ms| - 1], p);
      if p(ms[|ms| - 1]) then Add(kept, ms[|ms| - 1]) else kept
  }

  function Insert(ms: seq<Message>, m: Message): seq<Message> {
    if ms == [] || ms[|ms| - 1].createdAt <= m.createdAt then Add(ms, m)
    else Add(Insert(ms[..|ms| - 1], m), ms[|ms| - 1])
  }

  // The stable sort by creation time.
  function Chronological(ms: seq<Message>): seq<Message> {
    if ms == [] then [] else Insert(Chronological(ms[..|ms| - 1]), ms[|ms| - 1])
  }

  function InThread(m: Message, id: Id, tenantId: nat): bool {
    (m.parent == Some(id) || m.root == Some(id)) && m.tenantId == tenantId && !m.deleted
  }

  function Thread(ms: seq<Message>, id: Id, tenantId: nat): seq<Message> {
    Chronological(Filter(ms, (m: Message) => InThread(m, id, tenantId)))
  }

  // ---------- the reference: the tree of replies ----------

  // The positions of a message and, one after the other, of its parents.
  ghost predicate Path(ms: seq<Message>, path: seq<nat>) {
    && path != []
    && (forall j | 0 <= j < |path| :: path[j] < |ms|)
    && forall j | 0 < j < |path| :: Child(ms, path[j - 1], path[j])
  }

  predicate Child(ms: seq<Message>, i: nat, p: nat)
    requires i < |ms| && p < |ms|
  {
    ms[i].parent == Some(ms[p].id)
  }

  ghost predicate Leads(ms: seq<Message>, path: seq<nat>, i: nat, r: nat) {
    Path(ms, path) && |path| >= 2 && path[0] == i && path[|path| - 1] == r
  }

  // `r` is reached from `i` by following parents, at least once.
  ghost predicate Descends(ms: seq<Message>, i: nat, r: nat) {
    exists path :: Leads(ms, path, i, r)
  }

  predicate TopLevel(m: Message) { m.parent.None? }

  // ---------- what every run keeps ----------

  ghost predicate Unique(ms: seq<Message>) {
    forall i, j | 0 <= i < j < |ms| :: ms[i].id != ms[j].id
  }

  ghost predicate Hangs(ms: seq<Message>, i: nat, p: nat)
    requires i < |ms|
  {
    p < i && Child(ms, i, p) && ms[p].tenantId == ms[i].tenantId && ms[i].root == RootFrom(ms[p])
  }

  ghost predicate Linked(ms: seq<Message>, i: nat)
    requires i < |ms|
  {
    if ms[i].parent.None? then ms[i].root.None? else exists p: nat :: Hangs(ms, i, p)
  }

  ghost predicate Forest(ms: seq<Message>) {
    Unique(ms) && forall i | 0 <= i < |ms| :: Linked(ms, i)
  }

  ghost predicate Ordered(ms: seq<Message>) {
    forall i, j | 0 <= i < j < |ms| :: ms[i].createdAt <= ms[j].createdAt
  }

  function RepliesOf(ms: seq<Message>, id: Id): nat {
    if ms == [] then 0
    else RepliesOf(ms[..|ms| - 1], id) + (if ms[|ms| - 1].root == Some(id) then 1 else 0)
  }

  function WaitingFor(ws: seq<Write>, id: Id): nat {
    if ws == [] then 0
    else WaitingFor(ws[..|ws| - 1], id) + (if ws[|ws| - 1].root == Some(id) then 1 else 0)
  }

  // A reply is counted by its root or about to be.
  ghost predicate Counted(ms: seq<Message>, ws: seq<Write>) {
    forall i | 0 <= i < |ms| :: RepliesOf(ms, ms[i].id) == ms[i].repliesCount + WaitingFor(ws, ms[i].id)
  }

  ghost predicate Known(ms: seq<Message>, id: Id) {
    exists i | 0 <= i < |ms| :: ms[i].id == id
  }

  ghost predicate RootsKnown(ms: seq<Message>) {
    forall i | 0 <= i < |ms| && ms[i].root.Some? :: Known(ms, ms[i].root.value)
  }

  ghost predicate WritesKnown(ms: seq<Message>, ws: seq<Write>) {
    forall k | 0 <= k < |ws| && ws[k].root.Some? :: Known(ms, ws[k].root.value)
  }

  ghost predicate Inv(log: Log) {
    && Forest(log.messages)
    && RootsKnown(log.messages)
    && WritesKnown(log.messages, log.writes)
    && Counted(log.messages, log.writes)
  }

  datatype Step = DoPost(draft: Draft) | DoFinish(k: nat, now: int) | DoDelete(id: Id, tenantId: nat) | DoSweep(now: int)

  // Ids are fresh, and time does not run backwards.
  ghost predicate Admissible(log: Log, step: Step) {
    match step
    case DoPost(d) =>
      && !Known(log.messages, d.id)
      && forall i | 0 <= i < |log.messages| :: log.messages[i].createdAt <= d.now
    case DoFinish(k, _) => k < |log.writes|
    case _ => true
  }

  function Next(log: Log, step: Step): Log {
    match step
    case DoPost(d) => Post(log, d).0
    case DoFinish(k, now) => if k < |log.writes| then Finish(log, k, now) else log
    case DoDelete(id, tenantId) => Delete(log, id, tenantId)
    case DoSweep(now) => Sweep(log, now)
  }

  function Run(steps: seq<Step>): Log {
    if steps == [] then Log([], [], map[]) else Next(Run(steps[..|steps| - 1]), steps[|steps| - 1])
  }

  ghost predicate Possible(steps: seq<Step>) {
    steps != [] ==> Possible(steps[..|steps| - 1]) && Admissible(Run(steps[..|steps| - 1]), steps[|steps| - 1])
  }

  // Deleting and counting leave the shape of the log alone.
  ghost predicate SameShape(a: seq<Message>, b: seq<Message>) {
    && |a| == |b|
    && forall i | 0 <= i < |a| :: SameTies(a[i], b[i])
  }

  predicate SameTies(a: Message, b: Message) {
    && a.id == b.id && a.tenantId == b.tenantId && a.target == b.target && a.parent == b.parent
    && a.root == b.root && a.createdAt == b.createdAt && a.client == b.client
  }

  lemma ShapeKeepsForest(a: seq<Message>, b: seq<Message>)
    requires Forest(a) && SameShape(a, b)
    ensures Forest(b)
  {
    forall i | 0 <= i < |b| ensures Linked(b, i) {
      assert Linked(a, i) && SameTies(a[i], b[i]);
      if a[i].parent.Some? {
        var p: nat :| Hangs(a, i, p);
        assert SameTies(a[p], b[p]);
        assert Hangs(b, i, p);
      }
    }
    forall i, j | 0 <= i < j < |b| ensures b[i].id != b[j].id {
      assert SameTies(a[i], b[i]) && SameTies(a[j], b[j]);
    }
  }

  lemma ShapeKeepsKnown(a: seq<Message>, b: seq<Message>, id: Id)
    requires SameShape(a, b) && Known(a, id)
    ensures Known(b, id)
  {
    var i :| 0 <= i < |a| && a[i].id == id;
    assert SameTies(a[i], b[i]);
  }

  lemma ShapeKeepsRootsKnown(a: seq<Message>, b: seq<Message>)
    requires RootsKnown(a) && SameShape(a, b)
    ensures RootsKnown(b)
  {
    forall i | 0 <= i < |b| && b[i].root.Some? ensures Known(b, b[i].root.value) {
      assert SameTies(a[i], b[i]);
      ShapeKeepsKnown(a, b, a[i].root.value);
    }
  }

  lemma {:induction false} ShapeKeepsReplies(a: seq<Message>, b: seq<Message>, id: Id)
    requires SameShape(a, b)
    ensures RepliesOf(a, id) == RepliesOf(b, id)
  {
    if a != [] {
      var n := |a| - 1;
      assert SameTies(a[n], b[n]);
      assert SameShape(a[..n], b[..n]) by {
        forall i | 0 <= i < n ensures SameTies(a[..n][i], b[..n][i]) { assert SameTies(a[i], b[i]); }
      }
      ShapeKeepsReplies(a[..n], b[..n], id);
    }
  }

  // ---------- a post ----------

  lemma PushedForest(ms: seq<Message>, m: Message)
    requires Forest(ms) && !Known(ms, m.id)
    requires if m.parent.None? then m.root.None? else exists p: nat :: p < |ms| && HangsBelow(ms[p], m)
    ensures Forest(Add(ms, m))
  {
    var after := Add(ms, m);
    forall i | 0 <= i < |after| ensures Linked(after, i) {
      if i < |ms| {
        assert Linked(ms, i);
        if ms[i].parent.Some? {
          var p: nat :| Hangs(ms, i, p);
          assert Hangs(after, i, p);
        }
      } else if m.parent.Some? {
        var p: nat :| p < |ms| && HangsBelow(ms[p], m);
        assert Hangs(after, i, p);
      }
    }
  }

  predicate HangsBelow(p: Message, m: Message) {
    m.parent == Some(p.id) && p.tenantId == m.tenantId && m.root == RootFrom(p)
  }

  lemma KnownGrows(ms: seq<Message>, m: Message, id: Id)
    requires Known(ms, id)
    ensures Known(Add(ms, m), id)
  {
    var i :| 0 <= i < |ms| && ms[i].id == id;
    assert Add(ms, m)[i].id == id;
  }

  lemma PushedKnown(ms: seq<Message>, ws: seq<Write>, m: Message, w: Write)
    requires RootsKnown(ms) && WritesKnown(ms, ws) && w.root == m.root && (m.root.Some? ==> Known(ms, m.root.value))
    ensures RootsKnown(Add(ms, m)) && WritesKnown(Add(ms, m), Add(ws, w))
  {
    var after := Add(ms, m);
    forall i | 0 <= i < |after| && after[i].root.Some? ensures Known(after, after[i].root.value) {
      KnownGrows(ms, m, after[i].root.value);
    }
    forall k | 0 <= k < |Add(ws, w)| && Add(ws, w)[k].root.Some? ensures Known(after, Add(ws, w)[k].root.value) {
      KnownGrows(ms, m, Add(ws, w)[k].root.value);
    }
  }

  lemma {:induction false} NobodyRepliesTo(ms: seq<Message>, id: Id)
    requires forall i | 0 <= i < |ms| :: ms[i].root != Some(id)
    ensures RepliesOf(ms, id) == 0
  {
    if ms != [] { NobodyRepliesTo(ms[..|ms| - 1], id); }
  }

  lemma {:induction false} NobodyWaitsFor(ws: seq<Write>, id: Id)
    requires forall k | 0 <= k < |ws| :: ws[k].root != Some(id)
    ensures WaitingFor(ws, id) == 0
  {
    if ws != [] { NobodyWaitsFor(ws[..|ws| - 1], id); }
  }

  lemma CountsAppend(ms: seq<Message>, ws: seq<Write>, m: Message, w: Write, id: Id)
    ensures RepliesOf(Add(ms, m), id) == RepliesOf(ms, id) + (if m.root == Some(id) then 1 else 0)
    ensures WaitingFor(Add(ws, w), id) == WaitingFor(ws, id) + (if w.root == Some(id) then 1 else 0)
  {
    AddPrefix(ms, m);
    AddPrefix(ws, w);
  }

  lemma PushedCounted(ms: seq<Message>, ws: seq<Write>, m: Message, w: Write)
    requires Counted(ms, ws) && RootsKnown(ms) && WritesKnown(ms, ws)
    requires !Known(ms, m.id) && m.repliesCount == 0 && w.root == m.root && (m.root.Some? ==> Known(ms, m.root.value))
    ensures Counted(Add(ms, m), Add(ws, w))
  {
    forall i | 0 <= i < |Add(ms, m)|
      ensures RepliesOf(Add(ms, m), Add(ms, m)[i].id) == Add(ms, m)[i].repliesCount + WaitingFor(Add(ws, w), Add(ms, m)[i].id)
    {
      CountsAppend(ms, ws, m, w, Add(ms, m)[i].id);
      if i == |ms| {
        NobodyRepliesTo(ms, m.id);
        NobodyWaitsFor(ws, m.id);
      }
    }
  }

  lemma PushKeeps(log: Log, d: Draft, root: Option<Id>)
    requires Inv(log) && !Known(log.messages, d.id)
    requires if d.parent.None? then root.None?
      else exists p: nat :: p < |log.messages| && HangsBelow(log.messages[p], Compose(d, root))
    ensures Inv(Push(log, d, root))
  {
    var m, w := Compose(d, root), Write(d.id, root, d.client);
    if root.Some? {
      var p: nat :| p < |log.messages| && HangsBelow(log.messages[p], m);
      assert RootFrom(log.messages[p]) == root;
    }
    PushedForest(log.messages, m);
    PushedKnown(log.messages, log.writes, m, w);
    PushedCounted(log.messages, log.writes, m, w);
  }

  lemma PostKeeps(log: Log, d: Draft)
    requires Inv(log) && !Known(log.messages, d.id)
    ensures Inv(Post(log, d).0)
  {
    if Earlier(log, d.client).None? {
      if d.parent.None? {
        PushKeeps(log, d, None);
      } else {
        var p := ParentOf(log.messages, d);
        if p.Some? {
          assert HangsBelow(log.messages[p.value], Compose(d, RootFrom(log.messages[p.value])));
          PushKeeps(log, d, RootFrom(log.messages[p.value]));
        }
      }
    }
  }

  // ---------- the rest of a post ----------

  lemma {:induction false} WaitingLess(ws: seq<Write>, k: nat, id: Id)
    requires k < |ws|
    ensures WaitingFor(ws, id) == WaitingFor(RemoveAt(ws, k), id) + (if ws[k].root == Some(id) then 1 else 0)
  {
    RemoveAtPrefix(ws, k);
    if k < |ws| - 1 { WaitingLess(ws[..|ws| - 1], k, id); }
  }

  lemma BumpShape(ms: seq<Message>, root: Option<Id>)
    ensures SameShape(ms, Bump(ms, root))
  {
  }

  lemma BumpCounts(ms: seq<Message>, root: Id, i: nat)
    requires Unique(ms) && i < |ms|
    ensures Bump(ms, Some(root))[i].repliesCount == ms[i].repliesCount + (if ms[i].id == root then 1 else 0)
  {
  }

  lemma FinishKeepsCounted(ms: seq<Message>, ws: seq<Write>, k: nat)
    requires Unique(ms) && Counted(ms, ws) && k < |ws|
    ensures Counted(Bump(ms, ws[k].root), RemoveAt(ws, k))
  {
    var after := Bump(ms, ws[k].root);
    BumpShape(ms, ws[k].root);
    forall i | 0 <= i < |after|
      ensures RepliesOf(after, after[i].id) == after[i].repliesCount + WaitingFor(RemoveAt(ws, k), after[i].id)
    {
      assert SameTies(ms[i], after[i]);
      ShapeKeepsReplies(ms, after, ms[i].id);
      WaitingLess(ws, k, ms[i].id);
      if ws[k].root.Some? { BumpCounts(ms, ws[k].root.value, i); }
    }
  }

  lemma FinishKeeps(log: Log, k: nat, now: int)
    requires Inv(log) && k < |log.writes|
    ensures Inv(Finish(log, k, now))
  {
    var ws := RemoveAt(log.writes, k);
    BumpShape(log.messages, log.writes[k].root);
    var after := Bump(log.messages, log.writes[k].root);
    ShapeKeepsForest(log.messages, after);
    ShapeKeepsRootsKnown(log.messages, after);
    forall j | 0 <= j < |ws| && ws[j].root.Some? ensures Known(after, ws[j].root.value) {
      assert ws[j] == log.writes[if j < k then j else j + 1];
      ShapeKeepsKnown(log.messages, after, ws[j].root.value);
    }
    FinishKeepsCounted(log.messages, log.writes, k);
  }

  lemma DeleteShape(log: Log, id: Id, tenantId: nat)
    ensures SameShape(log.messages, Delete(log, id, tenantId).messages)
  {
  }

  lemma DeleteKeeps(log: Log, id: Id, tenantId: nat)
    requires Inv(log)
    ensures Inv(Delete(log, id, tenantId))
  {
    DeleteShape(log, id, tenantId);
    var after := Delete(log, id, tenantId).messages;
    ShapeKeepsForest(log.messages, after);
    ShapeKeepsRootsKnown(log.messages, after);
    forall k | 0 <= k < |log.writes| && log.writes[k].root.Some? ensures Known(after, log.writes[k].root.value) {
      ShapeKeepsKnown(log.messages, after, log.writes[k].root.value);
    }
    forall i | 0 <= i < |after|
      ensures RepliesOf(after, after[i].id) == after[i].repliesCount + WaitingFor(log.writes, after[i].id)
    {
      assert SameTies(log.messages[i], after[i]);
      ShapeKeepsReplies(log.messages, after, after[i].id);
    }
  }

  lemma {:induction false} RunKeeps(steps: seq<Step>)
    requires Possible(steps)
    ensures Inv(Run(steps))
  {
    if steps != [] {
      var before, step := steps[..|steps| - 1], steps[|steps| - 1];
      RunKeeps(before);
      match step {
        case DoPost(d) => PostKeeps(Run(before), d);
        case DoFinish(k, now) => FinishKeeps(Run(before), k, now);
        case DoDelete(id, tenantId) => DeleteKeeps(Run(before), id, tenantId);
        case DoSweep(_) =>
      }
    }
  }

  lemma ShapeKeepsOrdered(a: seq<Message>, b: seq<Message>)
    requires Ordered(a) && SameShape(a, b)
    ensures Ordered(b)
  {
    forall i, j | 0 <= i < j < |b| ensures b[i].createdAt <= b[j].createdAt {
      assert SameTies(a[i], b[i]) && SameTies(a[j], b[j]);
    }
  }

  lemma {:induction false} RunOrdered(steps: seq<Step>)
    requires Possible(steps)
    ensures Ordered(Run(steps).messages)
  {
    if steps != [] {
      var before := Run(steps[..|steps| - 1]);
      RunOrdered(steps[..|steps| - 1]);
      match steps[|steps| - 1] {
        case DoPost(d) => PostOrdered(before, d);
        case DoFinish(k, now) =>
          BumpShape(before.messages, before.writes[k].root);
          ShapeKeepsOrdered(before.messages, Bump(before.messages, before.writes[k].root));
        case DoDelete(id, tenantId) =>
          DeleteShape(before, id, tenantId);
          ShapeKeepsOrdered(before.messages, Delete(before, id, tenantId).messages);
        case DoSweep(_) =>
      }
    }
  }

  lemma PostOrdered(log: Log, d: Draft)
    requires Ordered(log.messages) && forall i | 0 <= i < |log.messages| :: log.messages[i].createdAt <= d.now
    ensures Ordered(Post(log, d).0.messages)
  {
  }
}
