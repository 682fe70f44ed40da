/**
 Reading history page by page while messages are posted and deleted: the listings of
 server/routes/messages.ts and server/routes/conversations.ts under the walk of their cursors.
 */
module MessageHistory {
  import opened Wrappers
  import opened MessageThreads
  import opened CursorPagination
  import MessageThreadsProofs

  // The top-level messages of a channel, the replies of one thread in it, and the top-level messages of
  // a conversation, which server/routes/conversations.ts lists with the deleted ones.
  datatype View = Channel(target: nat, tenantId: nat)
    | Replies(target: nat, tenantId: nat, id: MessageThreads.Id)
    | Conversation(target: nat)

  predicate Shows(v: View, m: Message) {
    match v
    case Channel(target, tenantId) => !m.deleted && m.target == target && m.tenantId == tenantId && m.parent.None?
    case Replies(target, tenantId, id) =>
      !m.deleted && m.target == target && m.tenantId == tenantId && (m.parent == Some(id) || m.root == Some(id))
    case Conversation(target) => m.target == target && m.parent.None?
  }

  function Ids(ms: seq<Message>): seq<nat> {
    if ms == [] then [] else Add(Ids(ms[..|ms| - 1]), ms[|ms| - 1].id)
  }

  function Showing(v: View): Message -> bool { (m: Message) => Shows(v, m) }

  function Listing(ms: seq<Message>, v: View): seq<nat> {
    Ids(Chronological(Filter(ms, Showing(v))))
  }

  // The position of a message in the log.
  function Place(ms: seq<Message>, id: nat): int {
    var i := Find(ms, (m: Message) => m.id == id);
    if i.Some? then i.value else -1
  }

  function Order(ms: seq<Message>): nat -> int { (id: nat) => Place(ms, id) }

  lemma PlaceIs(ms: seq<Message>, i: nat)
    requires Unique(ms) && i < |ms|
    ensures Order(ms)(ms[i].id) == i
  {
  }

  // A later log: more messages, none moved, none brought back.
  ghost predicate Extends(a: seq<Message>, b: seq<Message>) {
    |a| <= |b| && forall i | 0 <= i < |a| :: Ages(a[i], b[i])
  }

  predicate Ages(a: Message, b: Message) { SameTies(a, b) && (a.deleted ==> b.deleted) }

  lemma ExtendsTwice(a: seq<Message>, b: seq<Message>, c: seq<Message>)
    requires Extends(a, b) && Extends(b, c)
    ensures Extends(a, c)
  {
    forall i | 0 <= i < |a| ensures Ages(a[i], c[i]) { assert Ages(a[i], b[i]) && Ages(b[i], c[i]); }
  }

  lemma NextExtends(log: Log, step: Step)
    ensures Extends(log.messages, Next(log, step).messages)
  {
  }

  lemma RunAt(steps: seq<Step>, n: nat)
    requires 0 < n <= |steps|
    ensures Run(steps[..n]) == Next(Run(steps[..n - 1]), steps[n - 1])
  {
    assert steps[..n][..n - 1] == steps[..n - 1];
  }

  lemma ExtendsMore(steps: seq<Step>, a: seq<Message>, n: nat)
    requires 0 < n <= |steps| && Extends(a, Run(steps[..n - 1]).messages)
    ensures Extends(a, Run(steps[..n]).messages)
  {
    RunAt(steps, n);
    NextExtends(Run(steps[..n - 1]), steps[n - 1]);
    ExtendsTwice(a, Run(steps[..n - 1]).messages, Run(steps[..n]).messages);
  }

  lemma ExtendsItself(a: seq<Message>)
    ensures Extends(a, a)
  {
  }

  lemma {:induction false} RunExtends(steps: seq<Step>, m: nat, n: nat)
    requires m <= n <= |steps|
    ensures Extends(Run(steps[..m]).messages, Run(steps[..n]).messages)
    decreases n
  {
    if m == n {
      ExtendsItself(Run(steps[..m]).messages);
    } else {
      RunExtends(steps, m, n - 1);
      ExtendsMore(steps, Run(steps[..m]).messages, n);
    }
  }

  lemma {:induction false} PossiblePrefix(steps: seq<Step>, n: nat)
    requires Possible(steps) && n <= |steps|
    ensures Possible(steps[..n])
    decreases |steps|
  {
    if n < |steps| {
      assert steps[..|steps| - 1][..n] == steps[..n];
      PossiblePrefix(steps[..|steps| - 1], n);
    } else {
      assert steps[..n] == steps;
    }
  }

  // ---------- the listings agree on the order of the log ----------

  ghost predicate ListsFrom(ids: seq<nat>, ms: seq<Message>, p: Message -> bool) {
    forall x :: x in ids <==> exists i :: Shown(ms, i, x, p)
  }

  ghost predicate Shown(ms: seq<Message>, i: int, x: nat, p: Message -> bool) {
    0 <= i < |ms| && ms[i].id == x && p(ms[i])
  }

  lemma {:induction false} FilterLists(ms: seq<Message>, p: Message -> bool)
    ensures ListsFrom(Ids(Filter(ms, p)), ms, p)
  {
    if ms != [] {
      var n := |ms| - 1;
      FilterLists(ms[..n], p);
      FilterMore(ms, p);
      var before, after := Ids(Filter(ms[..n], p)), Ids(Filter(ms, p));
      AddHas(before, ms[n].id);
      forall x ensures x in after <==> exists i :: Shown(ms, i, x, p) {
        if x in after {
          if x in before {
            var i :| Shown(ms[..n], i, x, p);
            assert Shown(ms, i, x, p);
          } else {
            assert Shown(ms, n, x, p);
          }
        }
        if exists i :: Shown(ms, i, x, p) {
          var i :| Shown(ms, i, x, p);
          if i < n { assert Shown(ms[..n], i, x, p); }
        }
      }
    }
  }

  lemma IdsMore(ms: seq<Message>, m: Message)
    ensures Ids(Add(ms, m)) == Add(Ids(ms), m.id)
  {
    AddPrefix(ms, m);
  }

  lemma FilterMore(ms: seq<Message>, p: Message -> bool)
    requires ms != []
    ensures var n := |ms| - 1;
      Ids(Filter(ms, p)) == if p(ms[n]) then Add(Ids(Filter(ms[..n], p)), ms[n].id) else Ids(Filter(ms[..n], p))
  {
    var n := |ms| - 1;
    if p(ms[n]) {
      IdsMore(Filter(ms[..n], p), ms[n]);
    } else {
      assert Filter(ms, p) == Filter(ms[..n], p);
    }
  }

  lemma {:induction false} FilterSorted(ms: seq<Message>, final: seq<Message>, p: Message -> bool)
    requires Unique(final) && Extends(ms, final)
    ensures Sorted(Ids(Filter(ms, p)), Order(final))
  {
    if ms != [] {
      var n := |ms| - 1;
      var before := Ids(Filter(ms[..n], p));
      assert Extends(ms[..n], final) by {
        forall i | 0 <= i < n ensures Ages(ms[..n][i], final[i]) { assert Ages(ms[i], final[i]); }
      }
      FilterSorted(ms[..n], final, p);
      FilterLists(ms[..n], p);
      FilterMore(ms, p);
      forall y | y in before ensures Order(final)(y) < Order(final)(ms[n].id) {
        var i :| Shown(ms[..n], i, y, p);
        assert Ages(ms[i], final[i]) && Ages(ms[n], final[n]);
        PlaceIs(final, i);
        PlaceIs(final, n);
      }
      SortedMore(before, ms[n].id, Order(final));
    }
  }

  lemma ListingIsFilter(ms: seq<Message>, v: View)
    requires Ordered(ms)
    ensures Listing(ms, v) == Ids(Filter(ms, Showing(v)))
  {
    MessageThreadsProofs.FilterBelow(ms, Showing(v));
    MessageThreadsProofs.SortedStays(Filter(ms, Showing(v)));
  }

  lemma ListingSorted(ms: seq<Message>, final: seq<Message>, v: View)
    requires Ordered(ms) && Unique(final) && Extends(ms, final)
    ensures Sorted(Listing(ms, v), Order(final))
  {
    ListingIsFilter(ms, v);
    FilterSorted(ms, final, Showing(v));
  }

  lemma ListingHas(ms: seq<Message>, v: View, x: nat)
    requires Ordered(ms)
    ensures x in Listing(ms, v) <==> exists i :: Shown(ms, i, x, Showing(v))
  {
    ListingIsFilter(ms, v);
    FilterLists(ms, Showing(v));
  }

  // What is listed: the live top-level messages of a channel, the live replies to a message or in its
  // thread, and all top-level messages of a conversation.
  lemma {:induction false} ListedExactly(ms: seq<Message>, target: nat, tenantId: nat, id: nat, x: nat)
    requires Ordered(ms)
    ensures x in Listing(ms, Channel(target, tenantId)) <==>
      exists m | m in ms :: m.id == x && !m.deleted && m.target == target && m.tenantId == tenantId && m.parent.None?
    ensures x in Listing(ms, Replies(target, tenantId, id)) <==>
      exists m | m in ms :: m.id == x && !m.deleted && m.target == target && m.tenantId == tenantId && (m.parent == Some(id) || m.root == Some(id))
    ensures x in Listing(ms, Conversation(target)) <==> exists m | m in ms :: m.id == x && m.target == target && m.parent.None?
  {
    ListedIff(ms, Channel(target, tenantId), x);
    ListedIff(ms, Replies(target, tenantId, id), x);
    ListedIff(ms, Conversation(target), x);
  }

  lemma {:induction false} ListedIff(ms: seq<Message>, v: View, x: nat)
    requires Ordered(ms)
    ensures x in Listing(ms, v) <==> exists m | m in ms :: m.id == x && Shows(v, m)
  {
    ListingHas(ms, v, x);
    if x in Listing(ms, v) {
      var i :| Shown(ms, i, x, Showing(v));
      assert ms[i] in ms;
    }
    if exists m | m in ms :: m.id == x && Shows(v, m) {
      var m :| m in ms && m.id == x && Shows(v, m);
      var i :| 0 <= i < |ms| && ms[i] == m;
      assert Shown(ms, i, x, Showing(v));
    }
  }

  // A deleted message is in no thread and on no list but a conversation's, and nobody can reply to it.
  lemma {:induction false} DeletedIsGone(log: Log, i: nat, d: Draft)
    requires MessageThreads.Inv(log) && Ordered(log.messages) && i < |log.messages| && log.messages[i].deleted
    ensures var id := log.messages[i].id;
      && (forall x, tenantId, m | m in Thread(log.messages, x, tenantId) :: m.id != id)
      && (forall target, tenantId :: id !in Listing(log.messages, Channel(target, tenantId)))
      && (forall target, tenantId, x :: id !in Listing(log.messages, Replies(target, tenantId, x)))
      && (d.parent == Some(id) ==> !Post(log, d).1.Created?)
      && (d.parent == Some(id) && d.client.None? ==> Post(log, d).1 == NotFound)
  {
    var ms := log.messages;
    var id := ms[i].id;
    forall m | m in ms && m.id == id ensures m == ms[i] {
      var j :| 0 <= j < |ms| && ms[j] == m;
    }
    forall x, tenantId, m | m in Thread(ms, x, tenantId) ensures m.id != id {
      ThreadHas(ms, x, tenantId, m);
    }
    forall target, tenantId ensures id !in Listing(ms, Channel(target, tenantId)) { ListedIff(ms, Channel(target, tenantId), id); }
    forall target, tenantId, x ensures id !in Listing(ms, Replies(target, tenantId, x)) { ListedIff(ms, Replies(target, tenantId, x), id); }
    MessageThreadsProofs.PostExactly(log, d);
    assert d.parent == Some(id) ==> forall m | m in ms :: !MessageThreadsProofs.Answerable(m, d);
  }

  lemma {:induction false} ThreadHas(ms: seq<Message>, id: nat, tenantId: nat, m: Message)
    ensures m in Thread(ms, id, tenantId)
      <==> m in ms && (m.parent == Some(id) || m.root == Some(id)) && m.tenantId == tenantId && !m.deleted
  {
    var p := (x: Message) => InThread(x, id, tenantId);
    FilterHas(ms, p, m);
    MessageThreadsProofs.ChronologicalSorts(Filter(ms, p));
    assert m in Chronological(Filter(ms, p)) <==> m in multiset(Chronological(Filter(ms, p)));
  }

  lemma {:induction false} FilterHas(ms: seq<Message>, p: Message -> bool, m: Message)
    ensures m in Filter(ms, p) <==> m in ms && p(m)
  {
    if ms != [] {
      var most, last := ms[..|ms| - 1], ms[|ms| - 1];
      FilterHas(most, p, m);
      AddHas(Filter(most, p), last);
      AddHas(most, last);
      AddBack(ms);
    }
  }

  // A deletion is for good: once a request of its tenant has named a message, it is gone however the
  // run goes on.
  lemma {:induction false} DeletionIsForGood(steps: seq<Step>, k: nat, i: nat, d: Draft)
    requires Possible(steps) && k < |steps| && i < |Run(steps[..k]).messages|
    requires var m := Run(steps[..k]).messages[i]; steps[k] == DoDelete(m.id, m.tenantId)
    ensures var log, id := Run(steps), Run(steps[..k]).messages[i].id;
      && i < |log.messages| && log.messages[i].id == id && log.messages[i].deleted
      && (forall x, tenantId, m | m in Thread(log.messages, x, tenantId) :: m.id != id)
      && (forall target, tenantId :: id !in Listing(log.messages, Channel(target, tenantId)))
      && (forall target, tenantId, x :: id !in Listing(log.messages, Replies(target, tenantId, x)))
      && (d.parent == Some(id) ==> !Post(log, d).1.Created?)
  {
    var m := Run(steps[..k]).messages[i];
    PossiblePrefix(steps, k);
    RunKeeps(steps[..k]);
    MessageThreadsProofs.DeleteExactly(Run(steps[..k]), m.id, m.tenantId);
    RunAt(steps, k + 1);
    RunExtends(steps, k + 1, |steps|);
    assert steps[..|steps|] == steps;
    RunKeeps(steps);
    RunOrdered(steps);
    assert Ages(Run(steps[..k + 1]).messages[i], Run(steps).messages[i]);
    DeletedIsGone(Run(steps), i, d);
  }

  // What a later listing adds was posted after everything the earlier log held.
  lemma ListingGrows(a: seq<Message>, b: seq<Message>, final: seq<Message>, v: View)
    requires Ordered(a) && Ordered(b) && Unique(final) && Extends(a, b) && Extends(b, final)
    ensures GrowsAtTheEnd(Listing(a, v), Listing(b, v), Order(final))
  {
    var p := Showing(v);
    forall x, y | Joins(x, Listing(a, v), Listing(b, v)) && y in Listing(a, v)
      ensures Order(final)(y) < Order(final)(x)
    {
      ListingHas(b, v, x);
      ListingHas(a, v, x);
      ListingHas(a, v, y);
      var i :| Shown(b, i, x, p);
      var j :| Shown(a, j, y, p);
      if i < |a| {
        assert Ages(a[i], b[i]);
        assert Shown(a, i, x, p);
      }
      assert Ages(a[j], b[j]) && Ages(b[j], final[j]) && Ages(b[i], final[i]);
      PlaceIs(final, i);
      PlaceIs(final, j);
    }
  }

  // ---------- history as a client reads it ----------

  // The log at the moments of the fetches, and at the end.
  ghost predicate History(logs: seq<seq<Message>>, final: seq<Message>) {
    && Unique(final)
    && (logs != [] ==>
          var n := |logs| - 1;
          && History(logs[..n], final)
          && Ordered(logs[n]) && Extends(logs[n], final)
          && (n > 0 ==> Extends(logs[n - 1], logs[n])))
  }

  // What the server lists at those moments.
  function Lists(logs: seq<seq<Message>>, v: View): (lists: seq<seq<nat>>)
    ensures |lists| == |logs|
  {
    if logs == [] then [] else Add(Lists(logs[..|logs| - 1], v), Listing(logs[|logs| - 1], v))
  }

  lemma ListsMore(logs: seq<seq<Message>>, v: View)
    requires logs != []
    ensures var n := |logs| - 1; var lists := Lists(logs, v);
      lists[..n] == Lists(logs[..n], v) && lists[n] == Listing(logs[n], v)
  {
  }

  // No cursor is deleted before it is used.
  ghost predicate CursorsKept(lists: seq<seq<nat>>, pages: seq<Page>) {
    && |lists| == |pages|
    && (pages != [] ==>
          var n := |pages| - 1;
          CursorsKept(lists[..n], pages[..n]) && CursorKept(lists[n], pages[..n]))
  }

  lemma {:induction false} ListsAreSteady(logs: seq<seq<Message>>, final: seq<Message>, v: View, pages: seq<Page>)
    requires History(logs, final) && CursorsKept(Lists(logs, v), pages)
    ensures Steady(Lists(logs, v), pages, Order(final))
  {
    if logs != [] {
      var n := |logs| - 1;
      ListsMore(logs, v);
      ListsAreSteady(logs[..n], final, v, pages[..n]);
      ListingSorted(logs[n], final, v);
    }
  }

  lemma HistoryLast(logs: seq<seq<Message>>, final: seq<Message>)
    requires |logs| >= 2 && History(logs, final)
    ensures var n := |logs| - 1;
      && History(logs[..n], final) && Unique(final)
      && Ordered(logs[n - 1]) && Ordered(logs[n]) && Extends(logs[n - 1], logs[n]) && Extends(logs[n], final)
  {
    assert logs[..|logs| - 1][|logs| - 2] == logs[|logs| - 2];
  }

  lemma GrowsOnceMore(logs: seq<seq<Message>>, v: View, rank: nat -> int)
    requires |logs| >= 2
    requires OnlyGrowAtTheEnd(Lists(logs[..|logs| - 1], v), rank)
    requires GrowsAtTheEnd(Listing(logs[|logs| - 2], v), Listing(logs[|logs| - 1], v), rank)
    ensures OnlyGrowAtTheEnd(Lists(logs, v), rank)
  {
    var n := |logs| - 1;
    ListsMore(logs, v);
    ListsMore(logs[..n], v);
    assert Lists(logs, v)[n - 1] == Lists(logs[..n], v)[n - 1];
  }

  lemma {:induction false} ListsOnlyGrow(logs: seq<seq<Message>>, final: seq<Message>, v: View)
    requires History(logs, final)
    ensures OnlyGrowAtTheEnd(Lists(logs, v), Order(final))
  {
    if |logs| >= 2 {
      var n := |logs| - 1;
      HistoryLast(logs, final);
      ListsOnlyGrow(logs[..n], final, v);
      ListingGrows(logs[n - 1], logs[n], final, v);
      GrowsOnceMore(logs, v, Order(final));
    }
  }

  // With more to come, less was asked for than the first list held; otherwise nothing is missing.
  ghost predicate Exhausts(lists: seq<seq<nat>>, sizes: seq<nat>, pages: seq<Page>) {
    && lists != [] && pages != []
    && if pages[|pages| - 1].hasMore then Sum(sizes) < |lists[0]|
       else forall x | ListedThroughout(lists, x) :: x in Collected(pages)
  }

  lemma WalkIsComplete(lists: seq<seq<nat>>, sizes: seq<nat>, pages: seq<Page>, rank: nat -> int)
    requires Walk(lists, sizes, pages) && Steady(lists, pages, rank) && OnlyGrowAtTheEnd(lists, rank) && pages != []
    ensures Sorted(Collected(pages), rank) && Exhausts(lists, sizes, pages)
  {
    ShownOnceInOrder(lists, sizes, pages, rank);
    if pages[|pages| - 1].hasMore {
      WalkEnds(lists, sizes, pages, rank, 0);
    } else {
      forall x | ListedThroughout(lists, x) ensures x in Collected(pages) {
        FinishedWalkIsComplete(lists, sizes, pages, rank, x);
      }
    }
  }

  // ---------- over every run ----------

  // `cuts[k]` steps come before the k-th fetch.
  ghost predicate InTime(steps: seq<Step>, cuts: seq<nat>) {
    cuts != [] ==>
      var n := |cuts| - 1;
      InTime(steps, cuts[..n]) && cuts[n] <= |steps| && (n > 0 ==> cuts[n - 1] <= cuts[n])
  }

  function Moments(steps: seq<Step>, cuts: seq<nat>): (logs: seq<seq<Message>>)
    requires InTime(steps, cuts)
    ensures |logs| == |cuts|
  {
    if cuts == [] then []
    else
      var n := |cuts| - 1;
      Add(Moments(steps, cuts[..n]), Run(steps[..cuts[n]]).messages)
  }

  lemma {:induction false} MomentsAreHistory(steps: seq<Step>, cuts: seq<nat>)
    requires Possible(steps) && InTime(steps, cuts)
    ensures History(Moments(steps, cuts), Run(steps).messages)
    ensures cuts != [] ==> Moments(steps, cuts) != [] && Moments(steps, cuts)[|cuts| - 1] == Run(steps[..cuts[|cuts| - 1]]).messages
  {
    if cuts == [] {
      RunKeeps(steps);
    } else {
      var n := |cuts| - 1;
      MomentsAreHistory(steps, cuts[..n]);
      MomentFits(steps, cuts[n]);
      if n > 0 {
        RunExtends(steps, cuts[n - 1], cuts[n]);
      }
      HistoryMore(Moments(steps, cuts[..n]), Run(steps[..cuts[n]]).messages, Run(steps).messages);
    }
  }

  lemma MomentFits(steps: seq<Step>, n: nat)
    requires Possible(steps) && n <= |steps|
    ensures Ordered(Run(steps[..n]).messages) && Extends(Run(steps[..n]).messages, Run(steps).messages)
  {
    PossiblePrefix(steps, n);
    RunOrdered(steps[..n]);
    RunExtends(steps, n, |steps|);
    assert steps[..|steps|] == steps;
  }

  lemma HistoryMore(logs: seq<seq<Message>>, last: seq<Message>, final: seq<Message>)
    requires History(logs, final) && Ordered(last) && Extends(last, final)
    requires logs != [] ==> Extends(logs[|logs| - 1], last)
    ensures History(Add(logs, last), final)
  {
    AddPrefix(logs, last);
  }

  // While messages are posted and deleted between the fetches, but no cursor in use: the pages join
  // into one strictly ordered history without repetition, the walk ends, and then everything listed
  // throughout has been shown.
  lemma HistoryIsComplete(steps: seq<Step>, cuts: seq<nat>, v: View, sizes: seq<nat>, pages: seq<Page>)
    requires Possible(steps) && InTime(steps, cuts) && pages != []
    requires Walk(Lists(Moments(steps, cuts), v), sizes, pages) && CursorsKept(Lists(Moments(steps, cuts), v), pages)
    ensures Sorted(Collected(pages), Order(Run(steps).messages))
    ensures Exhausts(Lists(Moments(steps, cuts), v), sizes, pages)
  {
    MomentsAreHistory(steps, cuts);
    var logs, final := Moments(steps, cuts), Run(steps).messages;
    ListsAreSteady(logs, final, v, pages);
    ListsOnlyGrow(logs, final, v);
    WalkIsComplete(Lists(logs, v), sizes, pages, Order(final));
  }

  // ---------- conversations keep their deleted messages ----------

  lemma LaterConversation(a: seq<Message>, b: seq<Message>, target: nat, x: nat)
    requires Ordered(a) && Ordered(b) && Extends(a, b) && x in Listing(a, Conversation(target))
    ensures x in Listing(b, Conversation(target))
  {
    ListingHas(a, Conversation(target), x);
    ListingHas(b, Conversation(target), x);
    var i :| Shown(a, i, x, Showing(Conversation(target)));
    assert Ages(a[i], b[i]);
    assert Shown(b, i, x, Showing(Conversation(target)));
  }

  lemma CursorWasListed(lists: seq<seq<nat>>, sizes: seq<nat>, pages: seq<Page>)
    requires Walk(lists, sizes, pages) && pages != [] && CursorOf(pages).Some?
    ensures CursorOf(pages).value in lists[|pages| - 1]
  {
  }

  lemma {:induction false} ConversationCursorsStay(logs: seq<seq<Message>>, final: seq<Message>, target: nat,
                                                   sizes: seq<nat>, pages: seq<Page>)
    requires History(logs, final) && Walk(Lists(logs, Conversation(target)), sizes, pages)
    ensures CursorsKept(Lists(logs, Conversation(target)), pages)
  {
    if logs != [] {
      var n := |logs| - 1;
      ListsMore(logs, Conversation(target));
      ConversationCursorsStay(logs[..n], final, target, sizes[..n], pages[..n]);
      if n > 0 && CursorOf(pages[..n]).Some? {
        CursorWasListed(Lists(logs[..n], Conversation(target)), sizes[..n], pages[..n]);
        ListsMore(logs[..n], Conversation(target));
        LaterConversation(logs[n - 1], logs[n], target, CursorOf(pages[..n]).value);
      }
    }
  }

  lemma {:induction false} StaysListed(logs: seq<seq<Message>>, final: seq<Message>, target: nat, x: nat)
    requires History(logs, final) && logs != [] && x in Listing(logs[0], Conversation(target))
    ensures x in Listing(logs[|logs| - 1], Conversation(target))
    ensures ListedThroughout(Lists(logs, Conversation(target)), x)
  {
    var n := |logs| - 1;
    ListsMore(logs, Conversation(target));
    if n > 0 {
      StaysListed(logs[..n], final, target, x);
      LaterConversation(logs[n - 1], logs[n], target, x);
    }
    var lists := Lists(logs, Conversation(target));
    AddBack(lists);
  }

  lemma ConversationWalkIsComplete(logs: seq<seq<Message>>, final: seq<Message>, target: nat, sizes: seq<nat>, pages: seq<Page>)
    requires History(logs, final) && pages != [] && Walk(Lists(logs, Conversation(target)), sizes, pages)
    ensures Sorted(Collected(pages), Order(final))
    ensures Exhausts(Lists(logs, Conversation(target)), sizes, pages)
  {
    ConversationCursorsStay(logs, final, target, sizes, pages);
    ListsAreSteady(logs, final, Conversation(target), pages);
    ListsOnlyGrow(logs, final, Conversation(target));
    WalkIsComplete(Lists(logs, Conversation(target)), sizes, pages, Order(final));
  }

  lemma FirstIsListedThroughout(logs: seq<seq<Message>>, final: seq<Message>, target: nat)
    requires History(logs, final) && logs != []
    ensures Lists(logs, Conversation(target))[0] == Listing(logs[0], Conversation(target))
    ensures forall x | x in Listing(logs[0], Conversation(target)) :: ListedThroughout(Lists(logs, Conversation(target)), x)
  {
    FirstList(logs, Conversation(target));
    forall x | x in Listing(logs[0], Conversation(target)) ensures ListedThroughout(Lists(logs, Conversation(target)), x) {
      StaysListed(logs, final, target, x);
    }
  }

  // There the walk needs nothing of its surroundings: every message of the first listing is shown,
  // exactly once and in order, whatever is posted or deleted meanwhile.
  lemma ConversationHistoryIsComplete(steps: seq<Step>, cuts: seq<nat>, target: nat, sizes: seq<nat>, pages: seq<Page>)
    requires Possible(steps) && InTime(steps, cuts) && pages != []
    requires Walk(Lists(Moments(steps, cuts), Conversation(target)), sizes, pages)
    ensures Sorted(Collected(pages), Order(Run(steps).messages))
    ensures var first := Listing(Moments(steps, cuts)[0], Conversation(target));
      if pages[|pages| - 1].hasMore then Sum(sizes) < |first| else forall x | x in first :: x in Collected(pages)
  {
    MomentsAreHistory(steps, cuts);
    ConversationWalkIsComplete(Moments(steps, cuts), Run(steps).messages, target, sizes, pages);
    FirstIsListedThroughout(Moments(steps, cuts), Run(steps).messages, target);
  }

  lemma {:induction false} FirstList(logs: seq<seq<Message>>, v: View)
    requires logs != []
    ensures Lists(logs, v)[0] == Listing(logs[0], v)
  {
    ListsMore(logs, v);
    if |logs| > 1 { FirstList(logs[..|logs| - 1], v); }
  }
}
