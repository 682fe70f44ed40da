/** What the flat thread index of server/routes/messages.ts means: the tree of replies. */
module MessageThreadsProofs {
  import opened Wrappers
  import opened MessageThreads

  // ---------- the flat index is the tree ----------

  lemma ParentIsUnique(ms: seq<Message>, i: nat, p: nat, q: nat)
    requires Unique(ms) && i < |ms| && p < |ms| && q < |ms| && Child(ms, i, p) && Child(ms, i, q)
    ensures p == q
  {
  }

  lemma PathTail(ms: seq<Message>, path: seq<nat>)
    requires Path(ms, path) && |path| >= 2
    ensures Path(ms, path[1..])
  {
    var tail := path[1..];
    forall j | 0 < j < |tail| ensures Child(ms, tail[j - 1], tail[j]) {
      assert Child(ms, path[j + 1 - 1], path[j + 1]);
    }
  }

  lemma PathExtends(ms: seq<Message>, i: nat, path: seq<nat>)
    requires i < |ms| && Path(ms, path) && Child(ms, i, path[0])
    ensures Path(ms, [i] + path)
  {
    var longer := [i] + path;
    forall j | 0 < j < |longer| ensures Child(ms, longer[j - 1], longer[j]) {
      if j > 1 { assert Child(ms, path[j - 2], path[j - 1]); }
    }
  }

  // A root recorded for a message is a top-level message above it.
  lemma {:induction false} RootIsAbove(ms: seq<Message>, i: nat)
    requires Forest(ms) && i < |ms| && ms[i].root.Some?
    ensures exists r: nat :: r < |ms| && ms[i].root == Some(ms[r].id) && TopLevel(ms[r]) && Descends(ms, i, r)
    decreases i
  {
    assert Linked(ms, i);
    var p: nat :| Hangs(ms, i, p);
    assert Linked(ms, p);
    if ms[p].parent.None? {
      assert Leads(ms, [i, p], i, p);
    } else {
      var q: nat :| Hangs(ms, p, q);
      RootIsAbove(ms, p);
      var r: nat :| r < |ms| && ms[p].root == Some(ms[r].id) && TopLevel(ms[r]) && Descends(ms, p, r);
      var path :| Leads(ms, path, p, r);
      PathExtends(ms, i, path);
      assert Leads(ms, [i] + path, i, r);
    }
  }

  lemma {:induction false} AboveIsRoot(ms: seq<Message>, path: seq<nat>, i: nat, r: nat)
    requires Forest(ms) && Leads(ms, path, i, r) && TopLevel(ms[r])
    ensures ms[i].root == Some(ms[r].id)
    decreases |path|
  {
    assert Linked(ms, i);
    assert Child(ms, path[0], path[1]);
    var p: nat :| Hangs(ms, i, p);
    ParentIsUnique(ms, i, p, path[1]);
    assert Linked(ms, p);
    if |path| > 2 {
      PathTail(ms, path);
      assert Leads(ms, path[1..], p, r);
      AboveIsRoot(ms, path[1..], p, r);
    }
  }

  // The index names `r` exactly if `r` is a top-level message reached along parents.
  lemma IndexIsReachability(ms: seq<Message>, i: nat, r: nat)
    requires Forest(ms) && i < |ms| && r < |ms|
    ensures ms[i].root == Some(ms[r].id) <==> TopLevel(ms[r]) && Descends(ms, i, r)
  {
    if ms[i].root == Some(ms[r].id) {
      RootIsAbove(ms, i);
      var s: nat :| s < |ms| && ms[i].root == Some(ms[s].id) && TopLevel(ms[s]) && Descends(ms, i, s);
      assert s == r;
    }
    if TopLevel(ms[r]) && Descends(ms, i, r) {
      var path :| Leads(ms, path, i, r);
      AboveIsRoot(ms, path, i, r);
    }
  }

  lemma {:induction false} SameTenantAbove(ms: seq<Message>, path: seq<nat>, i: nat, r: nat)
    requires Forest(ms) && Leads(ms, path, i, r)
    ensures ms[i].tenantId == ms[r].tenantId
    decreases |path|
  {
    assert Linked(ms, i);
    assert Child(ms, path[0], path[1]);
    var p: nat :| Hangs(ms, i, p);
    ParentIsUnique(ms, i, p, path[1]);
    if |path| > 2 {
      PathTail(ms, path);
      assert Leads(ms, path[1..], p, r);
      SameTenantAbove(ms, path[1..], p, r);
    }
  }

  // ---------- the thread view ----------

  // The messages at the positions of `at`, in log order.
  function Picked(ms: seq<Message>, at: set<nat>): seq<Message> {
    if ms == [] then []
    else
      var picked := Picked(ms[..|ms| - 1], at);
      if |ms| - 1 in at then Add(picked, ms[|ms| - 1]) else picked
  }

  ghost function LiveDescendants(ms: seq<Message>, r: nat): set<nat> {
    set i: nat | i < |ms| && !ms[i].deleted && Descends(ms, i, r)
  }

  ghost function LiveReplies(ms: seq<Message>, r: nat): set<nat>
    requires r < |ms|
  {
    set i: nat | i < |ms| && !ms[i].deleted && ms[i].tenantId == ms[r].tenantId && Child(ms, i, r)
  }

  lemma {:induction false} FilterPicks(ms: seq<Message>, p: Message -> bool, at: set<nat>)
    requires forall i: nat | i < |ms| :: i in at <==> p(ms[i])
    ensures Filter(ms, p) == Picked(ms, at)
  {
    if ms != [] {
      var n: nat := |ms| - 1;
      assert n in at <==> p(ms[n]);
      FilterPicks(ms[..n], p, at);
    }
  }

  lemma {:induction false} FilterBelow(ms: seq<Message>, p: Message -> bool)
    requires Ordered(ms)
    ensures Ordered(Filter(ms, p))
    ensures forall m | m in Filter(ms, p) :: m in ms
  {
    if ms != [] {
      var last := ms[|ms| - 1];
      FilterBelow(ms[..|ms| - 1], p);
      assert forall m | m in ms[..|ms| - 1] :: m.createdAt <= last.createdAt;
      var kept := Filter(ms[..|ms| - 1], p);
      assert forall i | 0 <= i < |kept| :: kept[i] in kept;
    }
  }

  lemma {:induction false} SortedStays(ms: seq<Message>)
    requires Ordered(ms)
    ensures Chronological(ms) == ms
  {
    if ms != [] {
      SortedStays(ms[..|ms| - 1]);
    }
  }

  lemma ThreadPicks(ms: seq<Message>, id: Id, tenantId: nat, at: set<nat>)
    requires Ordered(ms)
    requires forall i: nat | i < |ms| :: i in at <==> InThread(ms[i], id, tenantId)
    ensures Thread(ms, id, tenantId) == Picked(ms, at)
  {
    var p := (m: Message) => InThread(m, id, tenantId);
    FilterPicks(ms, p, at);
    FilterBelow(ms, p);
    SortedStays(Filter(ms, p));
  }

  // The thread of a top-level message: its live transitive descendants, oldest first.
  lemma ThreadIsLiveDescendants(ms: seq<Message>, r: nat)
    requires Forest(ms) && Ordered(ms) && r < |ms| && TopLevel(ms[r])
    ensures Thread(ms, ms[r].id, ms[r].tenantId) == Picked(ms, LiveDescendants(ms, r))
  {
    forall i: nat | i < |ms| ensures i in LiveDescendants(ms, r) <==> InThread(ms[i], ms[r].id, ms[r].tenantId) {
      IndexIsReachability(ms, i, r);
      if Descends(ms, i, r) {
        var path :| Leads(ms, path, i, r);
        SameTenantAbove(ms, path, i, r);
      }
      if ms[i].parent == Some(ms[r].id) {
        assert Leads(ms, [i, r], i, r);
      }
    }
    ThreadPicks(ms, ms[r].id, ms[r].tenantId, LiveDescendants(ms, r));
  }

  // The thread of a reply: only its own live replies, not theirs.
  lemma ThreadOfReplyIsShallow(ms: seq<Message>, r: nat)
    requires Forest(ms) && Ordered(ms) && r < |ms| && !TopLevel(ms[r])
    ensures Thread(ms, ms[r].id, ms[r].tenantId) == Picked(ms, LiveReplies(ms, r))
  {
    forall i: nat | i < |ms| ensures i in LiveReplies(ms, r) <==> InThread(ms[i], ms[r].id, ms[r].tenantId) {
      IndexIsReachability(ms, i, r);
    }
    ThreadPicks(ms, ms[r].id, ms[r].tenantId, LiveReplies(ms, r));
  }

  lemma {:induction false} PickedCount(ms: seq<Message>, at: set<nat>)
    requires forall i | i in at :: i < |ms|
    ensures |Picked(ms, at)| == |at|
  {
    if ms == [] {
      assert at == {};
    } else {
      var n: nat := |ms| - 1;
      PickedAgree(ms[..n], at, at - {n});
      PickedCount(ms[..n], at - {n});
    }
  }

  lemma {:induction false} PickedAgree(ms: seq<Message>, a: set<nat>, b: set<nat>)
    requires forall i: nat | i < |ms| :: i in a <==> i in b
    ensures Picked(ms, a) == Picked(ms, b)
  {
    if ms != [] {
      var n: nat := |ms| - 1;
      assert n in a <==> n in b;
      PickedAgree(ms[..n], a, b);
    }
  }

  // ---------- the counter of the root ----------

  ghost function Descendants(ms: seq<Message>, r: nat): set<nat> {
    set i: nat | i < |ms| && Descends(ms, i, r)
  }

  lemma {:induction false} RepliesAreCounted(ms: seq<Message>, id: Id, at: set<nat>)
    requires forall i: nat :: i in at <==> i < |ms| && ms[i].root == Some(id)
    ensures RepliesOf(ms, id) == |at|
  {
    if ms == [] {
      assert at == {};
    } else {
      var n: nat := |ms| - 1;
      forall i: nat ensures i in at - {n} <==> i < |ms[..n]| && ms[..n][i].root == Some(id) {
        assert i in at <==> i < |ms| && ms[i].root == Some(id);
      }
      RepliesAreCounted(ms[..n], id, at - {n});
    }
  }

  // In every reachable log: the counter of a top-level message, plus the posts that still wait for
  // the database, is the number of its descendants, deleted ones included; a reply counts nothing.
  lemma RepliesCountIsDescendants(steps: seq<Step>, r: nat)
    requires Possible(steps) && r < |Run(steps).messages|
    ensures var log := Run(steps); var m := log.messages[r];
      if TopLevel(m) then m.repliesCount + WaitingFor(log.writes, m.id) == |Descendants(log.messages, r)|
      else m.repliesCount == 0 && WaitingFor(log.writes, m.id) == 0
  {
    RunKeeps(steps);
    var log := Run(steps);
    var ms := log.messages;
    if TopLevel(ms[r]) {
      forall i: nat ensures i in Descendants(ms, r) <==> i < |ms| && ms[i].root == Some(ms[r].id) {
        if i < |ms| { IndexIsReachability(ms, i, r); }
      }
      RepliesAreCounted(ms, ms[r].id, Descendants(ms, r));
    } else {
      forall i | 0 <= i < |ms| ensures ms[i].root != Some(ms[r].id) { IndexIsReachability(ms, i, r); }
      NobodyRepliesTo(ms, ms[r].id);
    }
  }

  // The same for the index and the thread view.
  lemma ReachableThreads(steps: seq<Step>, r: nat)
    requires Possible(steps) && r < |Run(steps).messages|
    ensures var ms := Run(steps).messages;
      && (forall i: nat | i < |ms| :: ms[i].root == Some(ms[r].id) <==> TopLevel(ms[r]) && Descends(ms, i, r))
      && Thread(ms, ms[r].id, ms[r].tenantId)
         == Picked(ms, if TopLevel(ms[r]) then LiveDescendants(ms, r) else LiveReplies(ms, r))
  {
    RunKeeps(steps);
    RunOrdered(steps);
    var ms := Run(steps).messages;
    forall i: nat | i < |ms| ensures ms[i].root == Some(ms[r].id) <==> TopLevel(ms[r]) && Descends(ms, i, r) {
      IndexIsReachability(ms, i, r);
    }
    if TopLevel(ms[r]) {
      ThreadIsLiveDescendants(ms, r);
    } else {
      ThreadOfReplyIsShallow(ms, r);
    }
  }

  // Deleting replies never lowers the counter below the length of the thread view, and with no
  // post waiting the two differ by exactly the deleted descendants.
  lemma CounterAgainstThread(steps: seq<Step>, r: nat)
    requires Possible(steps) && r < |Run(steps).messages| && TopLevel(Run(steps).messages[r])
    ensures var log := Run(steps); var ms := log.messages;
      ms[r].repliesCount + WaitingFor(log.writes, ms[r].id)
      == |Thread(ms, ms[r].id, ms[r].tenantId)| + |Descendants(ms, r) - LiveDescendants(ms, r)|
  {
    RepliesCountIsDescendants(steps, r);
    ReachableThreads(steps, r);
    var ms := Run(steps).messages;
    PickedCount(ms, LiveDescendants(ms, r));
    assert LiveDescendants(ms, r) <= Descendants(ms, r);
  }

  // ---------- what each handler does ----------

  // A live message of the tenant that a draft replies to.
  predicate Answerable(m: Message, d: Draft) { Some(m.id) == d.parent && m.tenantId == d.tenantId && !m.deleted }

  // What a post answers, in any log: the message that its clientMessageId has made, a refusal if it
  // replies to nothing live of its tenant, or a new message, whose write then waits. The first two
  // change nothing.
  lemma {:induction false} PostExactly(log: Log, d: Draft)
    ensures var (after, answer) := Post(log, d);
      var seen := d.client.Some? && d.client.value in log.processed
        && exists m | m in log.messages :: m.id == log.processed[d.client.value].id;
      var gone := d.parent.Some? && forall m | m in log.messages :: !Answerable(m, d);
      && (answer.Duplicate? <==> seen)
      && (answer.NotFound? <==> !seen && gone)
      && (answer.Duplicate? ==> answer.message in log.messages && answer.message.id == log.processed[d.client.value].id)
      && (if answer.Created? then CreatedFrom(log, d, after, answer.message) else after == log)
  {
    if d.client.Some? && d.client.value in log.processed {
      var id := log.processed[d.client.value].id;
      var i := Find(log.messages, (m: Message) => m.id == id);
      assert Earlier(log, d.client) == i;
    }
    if d.parent.Some? {
      var p := Find(log.messages, (m: Message) => m.id == d.parent.value && m.tenantId == d.tenantId && !m.deleted);
      assert ParentOf(log.messages, d) == p;
      if p.Some? { assert log.messages[p.value] in log.messages && Answerable(log.messages[p.value], d); }
    }
  }

  ghost predicate CreatedFrom(log: Log, d: Draft, after: Log, m: Message) {
    && after == Log(Add(log.messages, m), Add(log.writes, Write(d.id, m.root, d.client)), log.processed)
    && m == Message(d.id, d.tenantId, d.target, d.parent, m.root, false, 0, d.now, d.client)
    && (d.parent.None? ==> m.root.None?)
    && (d.parent.Some? ==> exists p | p in log.messages && Answerable(p, d) :: m.root == if p.root.Some? then p.root else Some(p.id))
  }

  // What the rest of a post does: its write is off the list, its clientMessageId is remembered with the
  // message and the time, and its thread root, and nothing else, counts one reply more.
  lemma {:induction false} FinishExactly(log: Log, k: nat, now: int)
    requires Inv(log) && k < |log.writes|
    ensures var w, after := log.writes[k], Finish(log, k, now);
      && |after.messages| == |log.messages| && |after.writes| == |log.writes| - 1
      && (forall i | 0 <= i < |after.writes| :: after.writes[i] == log.writes[if i < k then i else i + 1])
      && after.processed == (if w.client.Some? then log.processed[w.client.value := Seen(w.id, now)] else log.processed)
      && forall i | 0 <= i < |log.messages| :: after.messages[i]
           == log.messages[i].(repliesCount := log.messages[i].repliesCount + if w.root == Some(log.messages[i].id) then 1 else 0)
  {
    var ms, w := log.messages, log.writes[k];
    forall i: nat | i < |ms|
      ensures Bump(ms, w.root)[i] == ms[i].(repliesCount := ms[i].repliesCount + if w.root == Some(ms[i].id) then 1 else 0)
    {
      BumpOnly(ms, w.root, i);
    }
  }

  lemma {:induction false} BumpOnly(ms: seq<Message>, root: Option<Id>, i: nat)
    requires Unique(ms) && i < |ms|
    ensures |Bump(ms, root)| == |ms|
    ensures Bump(ms, root)[i] == ms[i].(repliesCount := ms[i].repliesCount + if root == Some(ms[i].id) then 1 else 0)
  {
  }

  // What a deletion does: it marks the message with that id if it is of that tenant, and nothing else.
  lemma {:induction false} DeleteExactly(log: Log, id: Id, tenantId: nat)
    requires Inv(log)
    ensures var after := Delete(log, id, tenantId);
      && |after.messages| == |log.messages| && after.writes == log.writes && after.processed == log.processed
      && forall i | 0 <= i < |log.messages| :: after.messages[i]
           == if log.messages[i].id == id && log.messages[i].tenantId == tenantId then log.messages[i].(deleted := true)
              else log.messages[i]
  {
  }

  // What a sweep does: it forgets the ids remembered for more than thirty minutes.
  lemma {:induction false} SweepExactly(log: Log, now: int)
    ensures var after := Sweep(log, now);
      && after.messages == log.messages && after.writes == log.writes
      && (forall c :: c in after.processed <==> c in log.processed && now - log.processed[c].at <= 1800000)
      && forall c | c in after.processed :: after.processed[c] == log.processed[c]
  {
  }

  // A run takes its steps one after the other, from the empty log. A post comes with a new id and no
  // earlier than the messages so far, a write that waits can end at any time, and deletions and sweeps
  // can always come.
  lemma {:induction false} RunExactly(steps: seq<Step>)
    requires steps != []
    ensures var log, last, after := Run(steps[..|steps| - 1]), steps[|steps| - 1], Run(steps);
      && Run([]) == Log([], [], map[])
      && (last.DoPost? ==> after == Post(log, last.draft).0)
      && (last.DoFinish? && last.k < |log.writes| ==> after == Finish(log, last.k, last.now))
      && (last.DoDelete? ==> after == Delete(log, last.id, last.tenantId))
      && (last.DoSweep? ==> after == Sweep(log, last.now))
      && (Possible(steps[..|steps| - 1]) && (last.DoDelete? || last.DoSweep?) ==> Possible(steps))
      && (Possible(steps[..|steps| - 1]) && last.DoFinish? ==> (Possible(steps) <==> last.k < |log.writes|))
      && (Possible(steps[..|steps| - 1]) && last.DoPost? ==>
            (Possible(steps) <==> forall m | m in log.messages :: m.id != last.draft.id && m.createdAt <= last.draft.now))
  {
    var log, last := Run(steps[..|steps| - 1]), steps[|steps| - 1];
    if last.DoPost? { NewestIff(log, last.draft); }
  }

  lemma {:induction false} NewestIff(log: Log, d: Draft)
    ensures Admissible(log, DoPost(d)) <==> forall m | m in log.messages :: m.id != d.id && m.createdAt <= d.now
  {
    if Admissible(log, DoPost(d)) {
      forall m | m in log.messages ensures m.id != d.id && m.createdAt <= d.now {
        var i :| 0 <= i < |log.messages| && log.messages[i] == m;
      }
    }
  }

  // The sort, for any messages: the same messages in order of time.
  lemma {:induction false} InsertHas(ms: seq<Message>, m: Message)
    ensures forall x | x in Insert(ms, m) :: x in ms || x == m
  {
    AddHas(ms, m);
    if ms != [] && ms[|ms| - 1].createdAt > m.createdAt {
      InsertHas(ms[..|ms| - 1], m);
      AddHas(Insert(ms[..|ms| - 1], m), ms[|ms| - 1]);
    }
  }

  lemma {:induction false} InsertCounts(ms: seq<Message>, m: Message)
    ensures multiset(Insert(ms, m)) == multiset(ms) + multiset{m}
  {
    AddCounts(ms, m);
    if ms != [] && ms[|ms| - 1].createdAt > m.createdAt {
      var most, last := ms[..|ms| - 1], ms[|ms| - 1];
      InsertCounts(most, m);
      AddCounts(Insert(most, m), last);
      AddBack(ms);
      AddCounts(most, last);
    }
  }

  lemma {:induction false} InsertOrders(ms: seq<Message>, m: Message)
    requires Ordered(ms)
    ensures Ordered(Insert(ms, m))
  {
    if ms != [] && ms[|ms| - 1].createdAt > m.createdAt {
      var most, last := ms[..|ms| - 1], ms[|ms| - 1];
      InsertOrders(most, m);
      InsertHas(most, m);
      var earlier := Insert(most, m);
      forall i | 0 <= i < |earlier| ensures earlier[i].createdAt <= last.createdAt {
        assert earlier[i] in earlier;
      }
    }
  }

  lemma {:induction false} AddCounts(ms: seq<Message>, m: Message)
    ensures multiset(Add(ms, m)) == multiset(ms) + multiset{m}
  {
    assert Add(ms, m) == ms + [m];
  }

  lemma {:induction false} ChronologicalSorts(ms: seq<Message>)
    ensures Ordered(Chronological(ms)) && multiset(Chronological(ms)) == multiset(ms)
  {
    if ms != [] {
      ChronologicalSorts(ms[..|ms| - 1]);
      InsertCounts(Chronological(ms[..|ms| - 1]), ms[|ms| - 1]);
      InsertOrders(Chronological(ms[..|ms| - 1]), ms[|ms| - 1]);
      AddBack(ms);
      AddCounts(ms[..|ms| - 1], ms[|ms| - 1]);
    }
  }

  // In any reachable log: a new message, besides, is top-level without a root, or sits below the message
  // it names and has the top of it as its root.
  lemma PostAnswers(steps: seq<Step>, d: Draft)
    requires Possible(steps) && Admissible(Run(steps), DoPost(d))
    ensures var log := Run(steps); var (after, answer) := Post(log, d);
      var seen := d.client.Some? && d.client.value in log.processed
        && exists m | m in log.messages :: m.id == log.processed[d.client.value].id;
      var gone := d.parent.Some? && forall m | m in log.messages :: !(m.id == d.parent.value && m.tenantId == d.tenantId && !m.deleted);
      && (answer.Duplicate? <==> seen)
      && (answer.NotFound? <==> !answer.Duplicate? && gone)
      && (!answer.Created? ==> after == log)
      && (answer.Created? ==>
            var n := |log.messages|;
            && after.messages == Add(log.messages, answer.message) && answer.message.id == d.id && !answer.message.deleted
            && (d.parent.None? <==> answer.message.root.None?)
            && forall r: nat | r < n ::
                 (answer.message.root == Some(log.messages[r].id) <==> TopLevel(log.messages[r]) && Descends(after.messages, n, r)))
  {
    PostExactly(Run(steps), d);
    if Post(Run(steps), d).1.Created? { NewMessageSits(steps, d); }
  }

  lemma NewMessageSits(steps: seq<Step>, d: Draft)
    requires Possible(steps) && Admissible(Run(steps), DoPost(d)) && Post(Run(steps), d).1.Created?
    ensures var log := Run(steps); var (after, answer) := Post(log, d);
      var n := |log.messages|;
      && after.messages == Add(log.messages, answer.message)
      && (d.parent.None? <==> answer.message.root.None?)
      && forall r: nat | r < n ::
           (answer.message.root == Some(log.messages[r].id) <==> TopLevel(log.messages[r]) && Descends(after.messages, n, r))
  {
    RunKeeps(steps);
    PostKeeps(Run(steps), d);
    var log := Run(steps);
    var (after, answer) := Post(log, d);
    assert Linked(after.messages, |log.messages|);
    forall r: nat | r < |log.messages|
      ensures answer.message.root == Some(log.messages[r].id)
        <==> TopLevel(log.messages[r]) && Descends(after.messages, |log.messages|, r)
    {
      IndexIsReachability(after.messages, |log.messages|, r);
    }
  }

  // ---------- repeated requests ----------

  function SentBy(ms: seq<Message>, client: nat): nat {
    if ms == [] then 0
    else SentBy(ms[..|ms| - 1], client) + (if ms[|ms| - 1].client == Some(client) then 1 else 0)
  }

  function WaitingOf(ws: seq<Write>, client: nat): nat {
    if ws == [] then 0
    else WaitingOf(ws[..|ws| - 1], client) + (if ws[|ws| - 1].client == Some(client) then 1 else 0)
  }

  // At no point more than `p` posts with this id wait for the database.
  ghost predicate Overlap(steps: seq<Step>, client: nat, p: nat) {
    steps != [] ==> Overlap(steps[..|steps| - 1], client, p) && WaitingOf(Run(steps).writes, client) <= p
  }

  // No sweep forgets the id once it is remembered.
  ghost predicate Retained(steps: seq<Step>, client: nat) {
    steps != [] ==>
      && Retained(steps[..|steps| - 1], client)
      && (client in Run(steps[..|steps| - 1]).processed ==> client in Run(steps).processed)
  }

  // A post in flight is in the log; a remembered id names a message of the log.
  ghost predicate Stored(log: Log) {
    && (forall k | 0 <= k < |log.writes| :: Known(log.messages, log.writes[k].id))
    && (forall c | c in log.processed :: Known(log.messages, log.processed[c].id))
  }

  ghost predicate AtMost(log: Log, client: nat, p: nat) {
    && SentBy(log.messages, client) <= p
    && (client in log.processed || SentBy(log.messages, client) == WaitingOf(log.writes, client))
  }

  lemma {:induction false} SentSame(a: seq<Message>, b: seq<Message>, client: nat)
    requires SameShape(a, b)
    ensures SentBy(a, client) == SentBy(b, client)
  {
    if a != [] {
      var n := |a| - 1;
      assert SameTies(a[n], b[n]);
      assert SameShape(a[..n], b[..n]) by {
        forall i | 0 <= i < n ensures SameTies(a[..n][i], b[..n][i]) { assert SameTies(a[i], b[i]); }
      }
      SentSame(a[..n], b[..n], client);
    }
  }

  lemma ShapeKeepsStored(log: Log, after: seq<Message>)
    requires Stored(log) && SameShape(log.messages, after)
    ensures Stored(log.(messages := after))
  {
    forall k | 0 <= k < |log.writes| ensures Known(after, log.writes[k].id) {
      ShapeKeepsKnown(log.messages, after, log.writes[k].id);
    }
    forall c | c in log.processed ensures Known(after, log.processed[c].id) {
      ShapeKeepsKnown(log.messages, after, log.processed[c].id);
    }
  }

  lemma PushStored(log: Log, d: Draft, root: Option<Id>)
    requires Stored(log)
    ensures Stored(Push(log, d, root))
  {
    var m, after := Compose(d, root), Push(log, d, root);
    forall k | 0 <= k < |after.writes| ensures Known(after.messages, after.writes[k].id) {
      if k < |log.writes| {
        KnownGrows(log.messages, m, log.writes[k].id);
      } else {
        assert after.messages[|log.messages|].id == d.id;
      }
    }
    forall c | c in log.processed ensures Known(after.messages, log.processed[c].id) {
      KnownGrows(log.messages, m, log.processed[c].id);
    }
  }

  lemma FinishStored(log: Log, k: nat, now: int)
    requires Stored(log) && k < |log.writes|
    ensures Stored(Finish(log, k, now))
  {
    BumpShape(log.messages, log.writes[k].root);
    ShapeKeepsStored(log, Bump(log.messages, log.writes[k].root));
    var after := Finish(log, k, now);
    forall j | 0 <= j < |after.writes| ensures Known(after.messages, after.writes[j].id) {
    }
  }

  lemma PostCounts(log: Log, d: Draft, client: nat, p: nat)
    requires Stored(log) && AtMost(log, client, p) && WaitingOf(Post(log, d).0.writes, client) <= p
    ensures Stored(Post(log, d).0) && AtMost(Post(log, d).0, client, p)
  {
    var (after, answer) := Post(log, d);
    if answer.Created? {
      var root := answer.message.root;
      assert after == Push(log, d, root);
      PushStored(log, d, root);
      AddPrefix(log.messages, answer.message);
      AddPrefix(log.writes, Write(d.id, root, d.client));
      if d.client == Some(client) && client in log.processed {
        assert false;
      }
    }
  }

  lemma FinishCounts(log: Log, k: nat, now: int, client: nat, p: nat)
    requires Stored(log) && AtMost(log, client, p) && k < |log.writes|
    ensures Stored(Finish(log, k, now)) && AtMost(Finish(log, k, now), client, p)
  {
    FinishStored(log, k, now);
    BumpShape(log.messages, log.writes[k].root);
    SentSame(log.messages, Bump(log.messages, log.writes[k].root), client);
    WaitingOfLess(log.writes, k, client);
  }

  lemma {:induction false} WaitingOfLess(ws: seq<Write>, k: nat, client: nat)
    requires k < |ws|
    ensures WaitingOf(ws, client) == WaitingOf(RemoveAt(ws, k), client) + (if ws[k].client == Some(client) then 1 else 0)
  {
    RemoveAtPrefix(ws, k);
    if k < |ws| - 1 { WaitingOfLess(ws[..|ws| - 1], k, client); }
  }

  lemma DeleteCounts(log: Log, id: Id, tenantId: nat, client: nat, p: nat)
    requires Stored(log) && AtMost(log, client, p)
    ensures Stored(Delete(log, id, tenantId)) && AtMost(Delete(log, id, tenantId), client, p)
  {
    DeleteShape(log, id, tenantId);
    SentSame(log.messages, Delete(log, id, tenantId).messages, client);
    ShapeKeepsStored(log, Delete(log, id, tenantId).messages);
  }

  lemma {:induction false} OverlapKeeps(steps: seq<Step>, client: nat, p: nat)
    requires Possible(steps) && Overlap(steps, client, p) && Retained(steps, client)
    ensures Stored(Run(steps)) && AtMost(Run(steps), client, p)
  {
    if steps != [] {
      var before := Run(steps[..|steps| - 1]);
      OverlapKeeps(steps[..|steps| - 1], client, p);
      match steps[|steps| - 1] {
        case DoPost(d) => PostCounts(before, d, client, p);
        case DoFinish(k, now) => FinishCounts(before, k, now, client, p);
        case DoDelete(id, tenantId) => DeleteCounts(before, id, tenantId, client, p);
        case DoSweep(_) =>
      }
    }
  }

  // One step: messages stay, and a post that waits has its message.
  lemma PostSends(log: Log, d: Draft, client: nat)
    requires WaitingOf(log.writes, client) <= SentBy(log.messages, client)
    ensures var after := Post(log, d).0;
      && SentBy(log.messages, client) <= SentBy(after.messages, client)
      && WaitingOf(after.writes, client) <= SentBy(after.messages, client)
  {
    var (after, answer) := Post(log, d);
    if answer.Created? {
      AddPrefix(log.messages, answer.message);
      AddPrefix(log.writes, Write(d.id, answer.message.root, d.client));
    }
  }

  lemma FinishSends(log: Log, k: nat, now: int, client: nat)
    requires WaitingOf(log.writes, client) <= SentBy(log.messages, client) && k < |log.writes|
    ensures var after := Finish(log, k, now);
      SentBy(log.messages, client) == SentBy(after.messages, client) && WaitingOf(after.writes, client) <= SentBy(after.messages, client)
  {
    BumpShape(log.messages, log.writes[k].root);
    SentSame(log.messages, Bump(log.messages, log.writes[k].root), client);
    WaitingOfLess(log.writes, k, client);
  }

  lemma StepSends(log: Log, step: Step, client: nat)
    requires WaitingOf(log.writes, client) <= SentBy(log.messages, client)
    ensures var after := Next(log, step);
      && SentBy(log.messages, client) <= SentBy(after.messages, client)
      && WaitingOf(after.writes, client) <= SentBy(after.messages, client)
  {
    match step {
      case DoPost(d) => PostSends(log, d, client);
      case DoFinish(k, now) => if k < |log.writes| { FinishSends(log, k, now, client); }
      case DoDelete(id, tenantId) =>
        DeleteShape(log, id, tenantId);
        SentSame(log.messages, Delete(log, id, tenantId).messages, client);
      case DoSweep(_) =>
    }
  }

  lemma {:induction false} WaitingWasSent(steps: seq<Step>, client: nat)
    ensures WaitingOf(Run(steps).writes, client) <= SentBy(Run(steps).messages, client)
    ensures Overlap(steps, client, SentBy(Run(steps).messages, client))
  {
    if steps != [] {
      var most := steps[..|steps| - 1];
      WaitingWasSent(most, client);
      StepSends(Run(most), steps[|steps| - 1], client);
      OverlapWider(most, client, SentBy(Run(most).messages, client), SentBy(Run(steps).messages, client));
    }
  }

  lemma {:induction false} OverlapWider(steps: seq<Step>, client: nat, p: nat, q: nat)
    requires Overlap(steps, client, p) && p <= q
    ensures Overlap(steps, client, q)
  {
    if steps != [] { OverlapWider(steps[..|steps| - 1], client, p, q); }
  }

  // As long as the server remembers a clientMessageId, it yields at most `p` messages exactly if never
  // more than `p` of its posts wait at once. With p = 1: a client that waits for each answer before it
  // repeats a request gets one message, and only such a client can count on it.
  lemma RepeatsAreAbsorbedIff(steps: seq<Step>, client: nat, p: nat)
    requires Possible(steps) && Retained(steps, client)
    ensures SentBy(Run(steps).messages, client) <= p <==> Overlap(steps, client, p)
  {
    if Overlap(steps, client, p) { OverlapKeeps(steps, client, p); }
    WaitingWasSent(steps, client);
    if SentBy(Run(steps).messages, client) <= p {
      OverlapWider(steps, client, SentBy(Run(steps).messages, client), p);
    }
  }

  lemma FirstPost(log: Log, d: Draft, client: nat)
    requires d.parent.None? && d.client == Some(client) && client !in log.processed
    ensures Post(log, d).0 == Push(log, d, None)
    ensures SentBy(Push(log, d, None).messages, client) == SentBy(log.messages, client) + 1
    ensures WaitingOf(Push(log, d, None).writes, client) == WaitingOf(log.writes, client) + 1
  {
    var after := Push(log, d, None);
    AddPrefix(log.messages, Compose(d, None));
    AddPrefix(log.writes, Write(d.id, None, d.client));
  }

  lemma RunOne(steps: seq<Step>, step: Step)
    ensures Run(Add(steps, step)) == Next(Run(steps), step)
    ensures Possible(steps) && Admissible(Run(steps), step) ==> Possible(Add(steps, step))
  {
    AddPrefix(steps, step);
  }

  // Two overlapping posts with one clientMessageId do make two messages.
  lemma OverlappingRepeatsDuplicate(d: Draft, again: Id, client: nat)
    requires again != d.id && d.parent.None? && d.client == Some(client)
    ensures var steps := Add(Add([], DoPost(d)), DoPost(d.(id := again)));
      Possible(steps) && SentBy(Run(steps).messages, client) == 2 && !Overlap(steps, client, 1)
  {
    var first := Add([], DoPost(d));
    RunOne([], DoPost(d));
    FirstPost(Run([]), d, client);
    RunOne(first, DoPost(d.(id := again)));
    FirstPost(Run(first), d.(id := again), client);
  }
}
