/**
 The cursor pagination that server/routes/messages.ts and server/routes/conversations.ts share.
 A list here is the ids of the filtered messages, oldest first; `rank` is any order all lists agree on.
 */
module CursorPagination {
  import opened Wrappers

  type Id = nat

  datatype Direction = Before | After

  datatype Page = Page(items: seq<Id>, hasMore: bool) {
    function PrevCursor(): Option<Id> { if items == [] then None else Some(items[0]) }

    function NextCursor(): Option<Id> { if items == [] then None else Some(items[|items| - 1]) }
  }

  // `None` is a limit that is not a number; like zero it means fifty.
  function PageSize(limit: Option<int>): (size: nat)
    ensures 1 <= size <= 100
    ensures limit.Some? && 1 <= limit.value <= 100 ==> size == limit.value
    ensures limit.None? || limit == Some(0) ==> size == 50
    ensures limit.Some? && limit.value > 100 ==> size == 100
    ensures limit.Some? && limit.value < 0 ==> size == 1
  {
    var wanted := if limit.None? || limit.value == 0 then 50 else limit.value;
    if wanted < 1 then 1 else if wanted > 100 then 100 else wanted
  }

  function FindIndex(list: seq<Id>, id: Id): (r: Option<nat>)
    ensures r.Some? ==> r.value < |list| && list[r.value] == id && id !in list[..r.value]
    ensures r.Some? <==> id in list
  {
    if list == [] then None
    else
      var earlier := FindIndex(list[..|list| - 1], id);
      if earlier.Some? then earlier
      else if list[|list| - 1] == id then Some(|list| - 1)
      else None
  }

  function Latest(list: seq<Id>, size: nat): Page {
    var start := if |list| > size then |list| - size else 0;
    Page(list[start..], |list| > size)
  }

  function Fetch(list: seq<Id>, cursor: Option<Id>, direction: Direction, size: nat): Page {
    var at := if cursor.Some? then FindIndex(list, cursor.value) else None;
    if at.None? then Latest(list, size)
    else if direction.After? then
      var end := at.value + 1 + size;
      Page(list[at.value + 1..if end < |list| then end else |list|], end < |list|)
    else
      var start := if at.value > size then at.value - size else 0;
      Page(list[start..at.value], start > 0)
  }

  // ---------- walking back through a list that changes ----------

  ghost predicate Sorted(list: seq<Id>, rank: Id -> int) {
    forall i, j | 0 <= i < j < |list| :: rank(list[i]) < rank(list[j])
  }

  function CursorOf(pages: seq<Page>): Option<Id> {
    if pages == [] then None else pages[|pages| - 1].PrevCursor()
  }

  // The client fetches the latest page, then goes on from prevCursor while hasMore; `lists[k]` is
  // what the server lists at the k-th fetch.
  ghost predicate Walk(lists: seq<seq<Id>>, sizes: seq<nat>, pages: seq<Page>) {
    && |lists| == |sizes| == |pages|
    && (pages != [] ==>
          var n := |pages| - 1;
          Walk(lists[..n], sizes[..n], pages[..n]) && Fetched(lists[n], sizes[n], pages[..n], pages[n]))
  }

  predicate Fetched(list: seq<Id>, size: nat, before: seq<Page>, page: Page) {
    && size >= 1
    && page == Fetch(list, CursorOf(before), Before, size)
    && (before != [] ==> before[|before| - 1].hasMore)
  }

  // The cursor has not disappeared meanwhile.
  predicate CursorKept(list: seq<Id>, before: seq<Page>) {
    CursorOf(before).Some? ==> CursorOf(before).value in list
  }

  // What has been shown, oldest first.
  function Collected(pages: seq<Page>): seq<Id> {
    if pages == [] then [] else pages[|pages| - 1].items + Collected(pages[..|pages| - 1])
  }

  // All lists agree on the order, and each still holds the cursor it is asked for.
  ghost predicate Steady(lists: seq<seq<Id>>, pages: seq<Page>, rank: Id -> int) {
    && |lists| == |pages|
    && (pages != [] ==>
          var n := |pages| - 1;
          Steady(lists[..n], pages[..n], rank) && Sorted(lists[n], rank) && CursorKept(lists[n], pages[..n]))
  }

  // Where the page ends: at the cursor, or at the end of the list.
  function End(list: seq<Id>, cursor: Option<Id>): (end: nat)
    requires cursor.Some? ==> cursor.value in list
    ensures end <= |list|
  {
    if cursor.Some? then FindIndex(list, cursor.value).value else |list|
  }

  predicate Under(x: Id, cursor: Option<Id>, rank: Id -> int) {
    cursor.None? || rank(x) < rank(cursor.value)
  }

  ghost predicate Block(list: seq<Id>, cursor: Option<Id>, p: Page, rank: Id -> int) {
    && Sorted(p.items, rank) && (p.hasMore ==> p.items != [])
    && (forall x | x in p.items :: Under(x, cursor, rank))
    && (forall x | x in list && Under(x, cursor, rank) :: x in p.items || (p.hasMore && rank(x) < rank(p.items[0])))
  }

  lemma FetchShape(list: seq<Id>, cursor: Option<Id>, size: nat)
    requires size >= 1 && (cursor.Some? ==> cursor.value in list)
    ensures var end := End(list, cursor);
      var start := if end > size then end - size else 0;
      Fetch(list, cursor, Before, size) == Page(list[start..end], start > 0)
  {
  }

  lemma BelowEnd(list: seq<Id>, cursor: Option<Id>, i: nat, rank: Id -> int)
    requires Sorted(list, rank) && (cursor.Some? ==> cursor.value in list) && i < |list|
    ensures Under(list[i], cursor, rank) <==> i < End(list, cursor)
  {
  }

  lemma SliceSorted(list: seq<Id>, lo: nat, hi: nat, rank: Id -> int)
    requires Sorted(list, rank) && lo <= hi <= |list|
    ensures Sorted(list[lo..hi], rank)
  {
  }

  lemma SliceUnder(list: seq<Id>, cursor: Option<Id>, lo: nat, rank: Id -> int)
    requires Sorted(list, rank) && (cursor.Some? ==> cursor.value in list) && lo <= End(list, cursor)
    ensures forall x | x in list[lo..End(list, cursor)] :: Under(x, cursor, rank)
  {
    var items := list[lo..End(list, cursor)];
    forall x | x in items ensures Under(x, cursor, rank) {
      var i :| 0 <= i < |items| && items[i] == x;
      BelowEnd(list, cursor, lo + i, rank);
    }
  }

  lemma SliceRest(list: seq<Id>, cursor: Option<Id>, lo: nat, x: Id, rank: Id -> int)
    requires Sorted(list, rank) && (cursor.Some? ==> cursor.value in list) && lo <= End(list, cursor)
    requires x in list && Under(x, cursor, rank) && (lo == 0 || lo < End(list, cursor))
    ensures x in list[lo..End(list, cursor)] || (lo < |list| && rank(x) < rank(list[lo]) && lo > 0)
  {
    var i :| 0 <= i < |list| && list[i] == x;
    BelowEnd(list, cursor, i, rank);
    if i >= lo { assert list[lo..End(list, cursor)][i - lo] == x; }
  }

  // One fetch: a block that ends at the cursor (or at the end of the list), in order; anything else
  // below the cursor is below the block, and then there is more.
  lemma FetchBlock(list: seq<Id>, cursor: Option<Id>, size: nat, rank: Id -> int)
    requires Sorted(list, rank) && size >= 1 && (cursor.Some? ==> cursor.value in list)
    ensures Block(list, cursor, Fetch(list, cursor, Before, size), rank)
  {
    FetchShape(list, cursor, size);
    var end := End(list, cursor);
    var start := if end > size then end - size else 0;
    SliceSorted(list, start, end, rank);
    SliceUnder(list, cursor, start, rank);
    forall x | x in list && Under(x, cursor, rank)
      ensures x in list[start..end] || (start > 0 && rank(x) < rank(list[start..end][0]))
    {
      SliceRest(list, cursor, start, x, rank);
    }
  }

  lemma SortedJoin(a: seq<Id>, b: seq<Id>, rank: Id -> int)
    requires Sorted(a, rank) && Sorted(b, rank)
    requires forall x | x in a :: b == [] || rank(x) < rank(b[0])
    ensures Sorted(a + b, rank)
  {
    var c := a + b;
    forall i, j | 0 <= i < j < |c| ensures rank(c[i]) < rank(c[j]) {
      if i < |a| <= j {
        assert a[i] in a;
        assert rank(b[0]) <= rank(b[j - |a|]);
      }
    }
  }

  // The last page starts what has been shown.
  lemma CollectedStart(pages: seq<Page>)
    requires pages != [] && pages[|pages| - 1].items != []
    ensures Collected(pages) != [] && CursorOf(pages) == Some(Collected(pages)[0])
  {
  }

  // However the list grows or shrinks between the fetches, as long as the cursor is still listed:
  // what is shown is strictly ordered, so nothing is shown twice.
  lemma {:induction false} ShownOnceInOrder(lists: seq<seq<Id>>, sizes: seq<nat>, pages: seq<Page>, rank: Id -> int)
    requires Walk(lists, sizes, pages) && Steady(lists, pages, rank)
    ensures Sorted(Collected(pages), rank)
    decreases |pages|
  {
    if pages != [] {
      var n := |pages| - 1;
      ShownOnceInOrder(lists[..n], sizes[..n], pages[..n], rank);
      FetchBlock(lists[n], CursorOf(pages[..n]), sizes[n], rank);
      if n > 0 {
        MorePagesStart(lists[..n], sizes[..n], pages[..n], rank);
      }
      SortedJoin(pages[n].items, Collected(pages[..n]), rank);
    }
  }

  lemma MorePagesStart(lists: seq<seq<Id>>, sizes: seq<nat>, pages: seq<Page>, rank: Id -> int)
    requires Walk(lists, sizes, pages) && Steady(lists, pages, rank) && pages != [] && pages[|pages| - 1].hasMore
    ensures Collected(pages) != [] && CursorOf(pages) == Some(Collected(pages)[0])
  {
    var n := |pages| - 1;
    FetchBlock(lists[n], CursorOf(pages[..n]), sizes[n], rank);
    CollectedStart(pages);
  }

  ghost predicate ListedThroughout(lists: seq<seq<Id>>, x: Id) { forall l | l in lists :: x in l }

  // A message listed at every fetch has been shown, or lies before everything shown and then there
  // is more.
  lemma {:induction false} ShownOrAhead(lists: seq<seq<Id>>, sizes: seq<nat>, pages: seq<Page>, rank: Id -> int, x: Id)
    requires Walk(lists, sizes, pages) && Steady(lists, pages, rank) && pages != []
    requires ListedThroughout(lists, x)
    ensures x in Collected(pages)
      || (pages[|pages| - 1].hasMore && CursorOf(pages).Some? && rank(x) < rank(CursorOf(pages).value))
    decreases |pages|
  {
    var n := |pages| - 1;
    FetchBlock(lists[n], CursorOf(pages[..n]), sizes[n], rank);
    assert lists[n] in lists;
    if n > 0 {
      assert forall l | l in lists[..n] :: l in lists;
      ShownOrAhead(lists[..n], sizes[..n], pages[..n], rank, x);
    }
  }

  // A finished walk has shown every message that was listed at every fetch.
  lemma FinishedWalkIsComplete(lists: seq<seq<Id>>, sizes: seq<nat>, pages: seq<Page>, rank: Id -> int, x: Id)
    requires Walk(lists, sizes, pages) && Steady(lists, pages, rank) && pages != [] && !pages[|pages| - 1].hasMore
    requires ListedThroughout(lists, x)
    ensures x in Collected(pages)
  {
    ShownOrAhead(lists, sizes, pages, rank, x);
  }

  // ---------- termination ----------

  // What is new is newer than everything listed before.
  ghost predicate GrowsAtTheEnd(a: seq<Id>, b: seq<Id>, rank: Id -> int) {
    forall x | Joins(x, a, b) :: Newest(x, a, rank)
  }

  predicate Joins(x: Id, a: seq<Id>, b: seq<Id>) { x in b && x !in a }

  predicate Newest(x: Id, a: seq<Id>, rank: Id -> int) { forall y | y in a :: rank(y) < rank(x) }

  ghost predicate OnlyGrowAtTheEnd(lists: seq<seq<Id>>, rank: Id -> int) {
    |lists| >= 2 ==>
      && OnlyGrowAtTheEnd(lists[..|lists| - 1], rank)
      && GrowsAtTheEnd(lists[|lists| - 2], lists[|lists| - 1], rank)
  }

  function Elements(list: seq<Id>): set<Id> { set x | x in list }

  lemma {:induction false} ElementsSize(list: seq<Id>, rank: Id -> int)
    requires Sorted(list, rank)
    ensures |Elements(list)| == |list|
  {
    if list != [] {
      var n := |list| - 1;
      ElementsSize(list[..n], rank);
      assert list[n] !in Elements(list[..n]);
      assert Elements(list) == Elements(list[..n]) + {list[n]};
    }
  }

  // A message has no more messages before it in the later list.
  lemma FewerBefore(a: seq<Id>, b: seq<Id>, c: Id, rank: Id -> int)
    requires Sorted(a, rank) && Sorted(b, rank) && GrowsAtTheEnd(a, b, rank) && c in a && c in b
    ensures FindIndex(b, c).value <= FindIndex(a, c).value
  {
    var i, j := FindIndex(a, c).value, FindIndex(b, c).value;
    forall x | x in Elements(b[..j]) ensures x in Elements(a[..i]) {
      var k :| 0 <= k < j && b[k] == x;
      assert rank(x) < rank(c);
      assert x in a by { assert Joins(x, a, b) ==> Newest(x, a, rank); }
      var l :| 0 <= l < |a| && a[l] == x;
      assert l < i;
    }
    assert Elements(b[..j]) <= Elements(a[..i]);
    SubsetSize(Elements(b[..j]), Elements(a[..i]));
    ElementsSize(b[..j], rank);
    ElementsSize(a[..i], rank);
  }

  lemma {:induction false} SubsetSize(a: set<Id>, b: set<Id>)
    requires a <= b
    ensures |a| <= |b|
  {
    if a != {} {
      var x :| x in a;
      SubsetSize(a - {x}, b - {x});
    }
  }

  function Sum(sizes: seq<nat>): nat {
    if sizes == [] then 0 else Sum(sizes[..|sizes| - 1]) + sizes[|sizes| - 1]
  }

  // The cursor has at least one message before it, and those together with the `asked` messages
  // are no more than `total`.
  predicate RoomLeft(list: seq<Id>, cursor: Option<Id>, asked: nat, total: nat) {
    cursor.Some? && FindIndex(list, cursor.value).Some? && 0 < FindIndex(list, cursor.value).value <= total - asked
  }

  lemma FirstRoom(list: seq<Id>, size: nat, rank: Id -> int)
    requires Sorted(list, rank) && size >= 1 && Fetch(list, None, Before, size).hasMore
    ensures RoomLeft(list, Fetch(list, None, Before, size).PrevCursor(), size, |list|)
  {
    NextCursorIndex(list, None, size, rank);
  }

  lemma NextRoom(earlier: seq<Id>, list: seq<Id>, cursor: Option<Id>, size: nat, asked: nat, total: nat, rank: Id -> int)
    requires Sorted(earlier, rank) && Sorted(list, rank) && GrowsAtTheEnd(earlier, list, rank)
    requires RoomLeft(earlier, cursor, asked, total) && cursor.value in list
    requires size >= 1 && Fetch(list, cursor, Before, size).hasMore
    ensures RoomLeft(list, Fetch(list, cursor, Before, size).PrevCursor(), asked + size, total)
  {
    NextCursorIndex(list, cursor, size, rank);
    FewerBefore(earlier, list, cursor.value, rank);
  }

  // While there is more, what was asked for so far fits behind the cursor in the first list.
  lemma {:induction false} CursorMovesDown(lists: seq<seq<Id>>, sizes: seq<nat>, pages: seq<Page>, rank: Id -> int)
    requires Walk(lists, sizes, pages) && Steady(lists, pages, rank) && OnlyGrowAtTheEnd(lists, rank)
    requires pages != [] && pages[|pages| - 1].hasMore
    ensures RoomLeft(lists[|pages| - 1], CursorOf(pages), Sum(sizes), |lists[0]|)
    decreases |pages|
  {
    var n := |pages| - 1;
    if n == 0 {
      FirstRoom(lists[0], sizes[0], rank);
      assert sizes[..0] == [];
    } else {
      CursorMovesDown(lists[..n], sizes[..n], pages[..n], rank);
      NextRoom(lists[n - 1], lists[n], CursorOf(pages[..n]), sizes[n], Sum(sizes[..n]), |lists[0]|, rank);
    }
  }

  lemma BlockCursor(list: seq<Id>, lo: nat, hi: nat, rank: Id -> int)
    requires Sorted(list, rank) && lo < hi <= |list|
    ensures Page(list[lo..hi], true).PrevCursor() == Some(list[lo]) && FindIndex(list, list[lo]) == Some(lo)
  {
    StartIndex(list, lo, rank);
  }

  lemma MoreIsFull(list: seq<Id>, cursor: Option<Id>, size: nat)
    requires size >= 1 && (cursor.Some? ==> cursor.value in list) && Fetch(list, cursor, Before, size).hasMore
    ensures End(list, cursor) > size
    ensures Fetch(list, cursor, Before, size) == Page(list[End(list, cursor) - size..End(list, cursor)], true)
  {
    FetchShape(list, cursor, size);
  }

  // If there is more, the next cursor is `size` places before the end of the page.
  lemma NextCursorIndex(list: seq<Id>, cursor: Option<Id>, size: nat, rank: Id -> int)
    requires Sorted(list, rank) && size >= 1 && (cursor.Some? ==> cursor.value in list)
    requires Fetch(list, cursor, Before, size).hasMore
    ensures var c := Fetch(list, cursor, Before, size).PrevCursor();
      c.Some? && FindIndex(list, c.value) == Some(End(list, cursor) - size) && End(list, cursor) - size > 0
  {
    var end := End(list, cursor);
    assert end > size && Fetch(list, cursor, Before, size) == Page(list[end - size..end], true) by {
      MoreIsFull(list, cursor, size);
    }
    CursorOfBlock(Fetch(list, cursor, Before, size), list, end - size, end, rank);
  }

  lemma CursorOfBlock(p: Page, list: seq<Id>, lo: nat, hi: nat, rank: Id -> int)
    requires Sorted(list, rank) && lo < hi <= |list| && p == Page(list[lo..hi], true)
    ensures p.PrevCursor().Some? && FindIndex(list, p.PrevCursor().value) == Some(lo)
  {
    BlockCursor(list, lo, hi, rank);
  }

  lemma StartIndex(list: seq<Id>, i: int, rank: Id -> int)
    requires Sorted(list, rank) && 0 <= i < |list|
    ensures FindIndex(list, list[i]) == Some(i)
  {
    var r := FindIndex(list, list[i]);
    assert rank(list[i]) == rank(list[r.value]);
  }

  lemma {:induction false} SumAtLeast(sizes: seq<nat>, least: nat)
    requires forall k | 0 <= k < |sizes| :: sizes[k] >= least
    ensures Sum(sizes) >= |sizes| * least
  {
    if sizes != [] {
      SumAtLeast(sizes[..|sizes| - 1], least);
      assert |sizes| * least == (|sizes| - 1) * least + least;
    }
  }

  // The walk ends: fetches that report more take fewer messages together than the first list held,
  // so with pages of at least `least` there are fewer than |lists[0]| / least + 1 of them.
  lemma WalkEnds(lists: seq<seq<Id>>, sizes: seq<nat>, pages: seq<Page>, rank: Id -> int, least: nat)
    requires Walk(lists, sizes, pages) && Steady(lists, pages, rank) && OnlyGrowAtTheEnd(lists, rank)
    requires pages != [] && pages[|pages| - 1].hasMore
    requires forall k | 0 <= k < |sizes| :: sizes[k] >= least
    ensures Sum(sizes) < |lists[0]| && |pages| * least < |lists[0]|
  {
    CursorMovesDown(lists, sizes, pages, rank);
    SumAtLeast(sizes, least);
  }

  // ---------- what one page holds, exactly ----------

  // Backward: no more than asked for, and hasMore exactly if a listed message before the cursor is
  // missing; then the page is full.
  lemma BeforePage(list: seq<Id>, cursor: Option<Id>, size: nat, rank: Id -> int)
    requires Sorted(list, rank) && size >= 1 && (cursor.Some? ==> cursor.value in list)
    ensures var p := Fetch(list, cursor, Before, size);
      && |p.items| <= size && (p.hasMore ==> |p.items| == size)
      && (p.hasMore <==> exists x :: x in list && Under(x, cursor, rank) && x !in p.items)
  {
    FetchShape(list, cursor, size);
    FetchBlock(list, cursor, size, rank);
    var p := Fetch(list, cursor, Before, size);
    if p.hasMore {
      BelowEnd(list, cursor, 0, rank);
      var start := End(list, cursor) - size;
      SliceMisses(list, start, End(list, cursor), 0, rank);
      assert list[0] in list && Under(list[0], cursor, rank) && list[0] !in p.items;
    }
  }

  lemma SliceMisses(list: seq<Id>, lo: nat, hi: nat, i: nat, rank: Id -> int)
    requires Sorted(list, rank) && lo <= hi <= |list| && i < |list| && !(lo <= i < hi)
    ensures list[i] !in list[lo..hi]
  {
  }

  // Forward: the next messages after the cursor, no more than asked for, and hasMore exactly if a
  // later one is missing; then the page is full.
  lemma AfterPage(list: seq<Id>, i: nat, size: nat, rank: Id -> int)
    requires Sorted(list, rank) && i < |list| && size >= 1
    ensures var p := Fetch(list, Some(list[i]), After, size);
      && |p.items| <= size && (p.hasMore ==> |p.items| == size)
      && p.items == list[i + 1..i + 1 + |p.items|]
      && (p.hasMore <==> exists x :: x in list && rank(list[i]) < rank(x) && x !in p.items)
  {
    StartIndex(list, i, rank);
    var p := Fetch(list, Some(list[i]), After, size);
    var end := i + 1 + |p.items|;
    if p.hasMore {
      SliceMisses(list, i + 1, end, end, rank);
      assert list[end] in list && rank(list[i]) < rank(list[end]);
    } else {
      forall x | x in list && rank(list[i]) < rank(x) ensures x in p.items {
        var k :| 0 <= k < |list| && list[k] == x;
        assert p.items[k - i - 1] == x;
      }
    }
  }

  // ---------- the two directions, and a cursor that vanishes ----------

  lemma FetchAfter(list: seq<Id>, i: nat, size: nat, rank: Id -> int)
    requires Sorted(list, rank) && i < |list|
    ensures Fetch(list, Some(list[i]), After, size).items == list[i + 1..if i + 1 + size < |list| then i + 1 + size else |list|]
  {
    StartIndex(list, i, rank);
  }

  lemma FetchBefore(list: seq<Id>, i: nat, size: nat, rank: Id -> int)
    requires Sorted(list, rank) && i < |list|
    ensures Fetch(list, Some(list[i]), Before, size).items == list[if i > size then i - size else 0..i]
  {
    StartIndex(list, i, rank);
  }

  lemma SliceTail(list: seq<Id>, lo: nat, hi: nat)
    requires lo < hi < |list|
    ensures list[lo + 1..hi + 1] == list[lo..hi][1..] + [list[hi]]
  {
  }

  lemma SliceHead(list: seq<Id>, lo: nat, hi: nat)
    requires lo < hi < |list|
    ensures list[lo..hi] == [list[lo]] + list[lo + 1..hi + 1][..hi - lo - 1]
  {
  }

  // Going forward from the first message of a page gives the rest of the page and the cursor.
  lemma AfterUndoesBefore(list: seq<Id>, i: nat, size: nat, rank: Id -> int)
    requires Sorted(list, rank) && i < |list| && size >= 1
    ensures var p := Fetch(list, Some(list[i]), Before, size);
      p.items != [] ==> Fetch(list, p.PrevCursor(), After, |p.items|).items == p.items[1..] + [list[i]]
  {
    FetchBefore(list, i, size, rank);
    var lo := if i > size then i - size else 0;
    if lo < i {
      FetchAfter(list, lo, i - lo, rank);
      SliceTail(list, lo, i);
    }
  }

  // Going back from the last message of a page gives the cursor and the rest of the page.
  lemma BeforeUndoesAfter(list: seq<Id>, i: nat, size: nat, rank: Id -> int)
    requires Sorted(list, rank) && i < |list| && size >= 1
    ensures var p := Fetch(list, Some(list[i]), After, size);
      p.items != [] ==> Fetch(list, p.NextCursor(), Before, |p.items|).items == [list[i]] + p.items[..|p.items| - 1]
  {
    FetchAfter(list, i, size, rank);
    var hi := if i + 1 + size < |list| then i + size else |list| - 1;
    var p := Fetch(list, Some(list[i]), After, size);
    assert p.items == list[i + 1..hi + 1];
    if i < hi {
      BackFrom(list, i, hi, rank);
      assert p.NextCursor() == Some(list[hi]);
    }
  }

  lemma BackFrom(list: seq<Id>, lo: nat, hi: nat, rank: Id -> int)
    requires Sorted(list, rank) && lo < hi < |list|
    ensures var p := list[lo + 1..hi + 1];
      p[|p| - 1] == list[hi] && Fetch(list, Some(list[hi]), Before, |p|).items == [list[lo]] + p[..|p| - 1]
  {
    FetchBefore(list, hi, hi - lo, rank);
    SliceHead(list, lo, hi);
  }

  function Without(list: seq<Id>, x: Id): seq<Id> {
    if list == [] then []
    else
      var rest := Without(list[..|list| - 1], x);
      if list[|list| - 1] == x then rest else Add(rest, list[|list| - 1])
  }

  lemma {:induction false} WithoutHas(list: seq<Id>, x: Id)
    ensures forall y :: y in Without(list, x) <==> y in list && y != x
  {
    if list != [] {
      var n := |list| - 1;
      WithoutHas(list[..n], x);
      AddHas(Without(list[..n], x), list[n]);
    }
  }

  lemma {:induction false} WithoutSorted(list: seq<Id>, x: Id, rank: Id -> int)
    requires Sorted(list, rank)
    ensures Sorted(Without(list, x), rank)
  {
    if list != [] {
      var most, last := list[..|list| - 1], list[|list| - 1];
      WithoutSorted(most, x, rank);
      WithoutHas(most, x);
      SortedMore(Without(most, x), last, rank);
    }
  }

  lemma SortedMore(list: seq<Id>, last: Id, rank: Id -> int)
    requires Sorted(list, rank) && forall y | y in list :: rank(y) < rank(last)
    ensures Sorted(Add(list, last), rank)
  {
    assert forall i | 0 <= i < |list| :: list[i] in list;
  }

  lemma LatestIsLast(list: seq<Id>, size: nat)
    requires list != [] && size >= 1
    ensures list[|list| - 1] in Latest(list, size).items
  {
    var p := Latest(list, size);
    assert p.items[|p.items| - 1] == list[|list| - 1];
  }

  // The second page after `x` has disappeared.
  function SecondPage(list: seq<Id>, x: Id, size: nat, nextSize: nat): Page {
    Fetch(Without(list, x), Fetch(list, None, Before, size).PrevCursor(), Before, nextSize)
  }

  predicate Disjoint(a: seq<Id>, b: seq<Id>) { forall y | y in a :: y !in b }

  lemma CursorStays(list: seq<Id>, x: Id, size: nat, nextSize: nat, rank: Id -> int)
    requires Sorted(list, rank) && 1 <= size < |list| && nextSize >= 1 && x != list[|list| - size]
    ensures Disjoint(SecondPage(list, x, size, nextSize).items, list[|list| - size..])
  {
    WithoutSorted(list, x, rank);
    WithoutHas(list, x);
    FetchShape(list, None, size);
    var c := list[|list| - size];
    SliceSorted(list, |list| - size, |list|, rank);
    FetchBlock(Without(list, x), Some(c), nextSize, rank);
    FirstIsLowest(list[|list| - size..], rank);
  }

  lemma CursorLost(list: seq<Id>, size: nat, nextSize: nat, rank: Id -> int)
    requires Sorted(list, rank) && 1 <= size < |list| && nextSize >= 1
    ensures Disjoint(SecondPage(list, list[|list| - size], size, nextSize).items, list[|list| - size..]) <==> size == 1
  {
    var x := list[|list| - size];
    var rest := Without(list, x);
    WithoutSorted(list, x, rank);
    WithoutHas(list, x);
    FetchShape(list, None, size);
    assert SecondPage(list, x, size, nextSize) == Latest(rest, nextSize);
    if size == 1 {
      assert list[|list| - size..] == [x];
    } else {
      assert rank(x) < rank(list[|list| - 1]);
      LastSurvives(list, x, rank);
      LatestIsLast(rest, nextSize);
      assert list[|list| - size..][size - 1] == list[|list| - 1];
    }
  }

  // One message `x` disappears after the first page. The second page is all new unless `x` was the
  // cursor and the first page held more than it: then the walk starts over at the latest page.
  lemma SecondPageIsNewIff(list: seq<Id>, x: Id, size: nat, nextSize: nat, rank: Id -> int)
    requires Sorted(list, rank) && size >= 1 && nextSize >= 1 && Fetch(list, None, Before, size).hasMore
    ensures var first := Fetch(list, None, Before, size);
      Disjoint(SecondPage(list, x, size, nextSize).items, first.items) <==> x != first.items[0] || size == 1
  {
    FetchShape(list, None, size);
    if x != list[|list| - size] {
      CursorStays(list, x, size, nextSize, rank);
    } else {
      CursorLost(list, size, nextSize, rank);
    }
  }

  lemma FirstIsLowest(items: seq<Id>, rank: Id -> int)
    requires Sorted(items, rank) && items != []
    ensures forall z | z in items :: rank(items[0]) <= rank(z)
  {
  }

  lemma LastSurvives(list: seq<Id>, x: Id, rank: Id -> int)
    requires list != [] && list[|list| - 1] != x
    ensures Without(list, x) != [] && Without(list, x)[|Without(list, x)| - 1] == list[|list| - 1]
  {
  }
}
