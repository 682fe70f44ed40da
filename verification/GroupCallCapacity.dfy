/**
 The capacity of a group call when joins interleave. A join reads the number of joined rows, then
 the row of the user, then writes; every pair of queries has an `await` between them, in which
 other joins, leaves, invitations, endings and webhooks run.
 */
module GroupCallCapacity {
  import opened Wrappers
  import opened GroupCallRows

  type JoinId = nat

  // A join between the capacity check and its write: it has counted, or it has passed the check
  // and is about to update the row `target` or to insert one.
  datatype Join = Counted(userId: UserId, count: nat) | Passed(userId: UserId, target: Option<nat>)

  datatype Room = Room(max: int, creator: UserId, rows: seq<Row>, joins: map<JoinId, Join>)

  // The participant limit that `create` puts into the row of the call; `most` is the limit of the
  // installation, 25 unless configured otherwise.
  function Limit(requested: int, most: int): (n: int)
    ensures n <= most && (n < most ==> n >= 2 && n >= requested)
    ensures 2 <= requested <= most ==> n == requested
    ensures requested < 2 <= most ==> n == 2
    ensures most < 2 || requested > most ==> n == most
  {
    var atLeast := if requested > 2 then requested else 2;
    if atLeast < most then atLeast else most
  }

  // The creator comes in whatever the limit.
  function Seats(max: int): nat { if max < 1 then 1 else max }

  // `create` has inserted the call; the insert of its creator, which checks nothing, is still to come,
  // like that of a join `id` that has passed its check.
  function Created(creator: UserId, requested: int, most: int, id: JoinId): Room {
    Room(Limit(requested, most), creator, [], map[id := Passed(creator, None)])
  }

  datatype Action =
    | Count(id: JoinId, user: UserId)
    | ReadRow(id: JoinId, row: nat)
    | WriteRow(id: JoinId)
    | Fail(id: JoinId)
    | LeaveRow(row: nat)
    | PromoteRow(row: nat)
    | InviteUser(user: UserId)
    | EndAll
    | WebhookLeft(user: UserId)

  // A step with unusable parameters does nothing.
  function Step(s: Room, a: Action): Room {
    match a
    case Count(id, user) =>
      if id in s.joins then s else s.(joins := s.joins[id := Counted(user, CountJoined(s.rows))])
    case ReadRow(id, row) =>
      if id in s.joins && s.joins[id].Counted? then Check(s, id, s.joins[id].userId, s.joins[id].count, row) else s
    case WriteRow(id) =>
      if id in s.joins && s.joins[id].Passed? then Write(s, id, s.joins[id].userId, s.joins[id].target) else s
    case Fail(id) => s.(joins := s.joins - {id})
    case LeaveRow(row) => if row < |s.rows| then s.(rows := WithStatus(s.rows, row, Left)) else s
    case PromoteRow(row) => if row < |s.rows| then s.(rows := s.rows[row := s.rows[row].(role := Host)]) else s
    case InviteUser(user) => s.(rows := s.rows + [Row(user, Participant, Invited)])
    case EndAll => s.(rows := AllLeft(s.rows))
    case WebhookLeft(user) => s.(rows := UserLeft(s.rows, user))
  }

  // Reading the user's row, of which the database returns any, and deciding.
  function Check(s: Room, id: JoinId, user: UserId, count: nat, row: nat): Room {
    if HasRow(s.rows, user) then
      if !Owns(s.rows, user, row) then s
      else if s.rows[row].status != Joined && count >= s.max then s.(joins := s.joins - {id})
      else s.(joins := s.joins[id := Passed(user, Some(row))])
    else if count >= s.max then s.(joins := s.joins - {id})
    else s.(joins := s.joins[id := Passed(user, None)])
  }

  function Write(s: Room, id: JoinId, user: UserId, target: Option<nat>): Room {
    var done := s.(joins := s.joins - {id});
    match target
    case Some(i) => if i < |s.rows| then done.(rows := WithStatus(s.rows, i, Joined)) else done
    case None => done.(rows := s.rows + [Row(user, if user == s.creator then Host else Participant, Joined)])
  }

  // ---------- what each action does ----------

  // A join counts the joined rows, then reads a row of its user, and goes on if that row is joined
  // already or it had counted less than the limit; a read that no database returns does nothing.
  lemma {:induction false} JoinActionsExactly(s: Room, id: JoinId, user: UserId, row: nat)
    ensures id !in s.joins ==> Step(s, Count(id, user)) == s.(joins := s.joins[id := Counted(user, |JoinedIds(s.rows)|)])
    ensures id in s.joins && s.joins[id].Counted? ==>
      var j, r := s.joins[id], Step(s, ReadRow(id, row));
      var own, none := row < |s.rows| && s.rows[row].userId == j.userId, forall i | 0 <= i < |s.rows| :: s.rows[i].userId != j.userId;
      r == if own && (s.rows[row].status == Joined || j.count < s.max) then s.(joins := s.joins[id := Passed(j.userId, Some(row))])
           else if none && j.count < s.max then s.(joins := s.joins[id := Passed(j.userId, None)])
           else if own || none then s.(joins := s.joins - {id})
           else s
    ensures Step(s, Fail(id)) == s.(joins := s.joins - {id})
  {
  }

  // Its write makes the row it has read a joined one, or adds one, for the creator as host.
  lemma {:induction false} WriteExactly(s: Room, id: JoinId)
    requires id in s.joins && s.joins[id].Passed?
    ensures var j, r := s.joins[id], Step(s, WriteRow(id));
      && r.max == s.max && r.creator == s.creator && r.joins == s.joins - {id}
      && (j.target.None? ==> r.rows == s.rows + [Row(j.userId, if j.userId == s.creator then Host else Participant, Joined)])
      && (j.target.Some? && j.target.value < |s.rows| ==>
            var was := s.rows[j.target.value];
            r.rows == s.rows[j.target.value := Row(was.userId, was.role, Joined)])
  {
  }

  // The statements of the other handlers: each changes the rows it names in one field, or adds one.
  lemma {:induction false} RowActionsExactly(s: Room, row: nat, user: UserId)
    requires row < |s.rows|
    ensures var was := s.rows[row];
      && Step(s, LeaveRow(row)) == s.(rows := s.rows[row := Row(was.userId, was.role, Left)])
      && Step(s, PromoteRow(row)) == s.(rows := s.rows[row := Row(was.userId, Host, was.status)])
    ensures Step(s, InviteUser(user)) == s.(rows := s.rows + [Row(user, Participant, Invited)])
  {
  }

  lemma {:induction false} BulkActionsExactly(s: Room, user: UserId)
    ensures var ended, left := Step(s, EndAll), Step(s, WebhookLeft(user));
      && ended == s.(rows := ended.rows) && left == s.(rows := left.rows) && |ended.rows| == |left.rows| == |s.rows|
      && forall i | 0 <= i < |s.rows| ::
           var was := s.rows[i];
           && ended.rows[i] == (if was.status == Joined then Row(was.userId, was.role, Left) else was)
           && left.rows[i] == if was.userId == user then Row(user, was.role, Left) else was
  {
  }

  // ---------- runs ----------

  function Run(s: Room, actions: seq<Action>): Room {
    if actions == [] then s else Step(Run(s, actions[..|actions| - 1]), actions[|actions| - 1])
  }

  // Never more than `p` joins between the capacity check and the write.
  ghost predicate Within(s: Room, actions: seq<Action>, p: nat) {
    forall i | 0 <= i <= |actions| :: |Run(s, actions[..i]).joins| <= p
  }

  // ---------- the potential ----------

  // A place that is taken or that a join in flight may still take.
  datatype Slot = RowSlot(row: nat) | NewSlot(id: JoinId)

  predicate MayTake(j: Join, max: int) { j.Passed? || j.count < max }

  function SlotOf(id: JoinId, j: Join): Slot {
    if j.Passed? && j.target.Some? then RowSlot(j.target.value) else NewSlot(id)
  }

  ghost function TakenSlots(s: Room): set<Slot> { set i | i in JoinedIds(s.rows) :: RowSlot(i) }

  ghost function ClaimedSlots(s: Room): set<Slot> {
    set id | id in s.joins && MayTake(s.joins[id], s.max) :: SlotOf(id, s.joins[id])
  }

  ghost function Slots(s: Room): set<Slot> { TakenSlots(s) + ClaimedSlots(s) }

  ghost predicate TargetsExist(s: Room) {
    forall id | id in s.joins && s.joins[id].Passed? && s.joins[id].target.Some? :: s.joins[id].target.value < |s.rows|
  }

  ghost predicate Inv(s: Room, p: nat) {
    TargetsExist(s) && |Slots(s)| <= Seats(s.max) - 1 + p
  }

  ghost function Image<A(!new), B>(xs: set<A>, f: A -> B): set<B> { set x | x in xs :: f(x) }

  lemma {:induction false} ImageBound<A(!new), B>(xs: set<A>, f: A -> B)
    ensures |Image(xs, f)| <= |xs|
  {
    if xs != {} {
      var a :| a in xs;
      var rest := xs - {a};
      ImageBound(rest, f);
      assert Image(xs, f) == Image(rest, f) + {f(a)};
    }
  }

  lemma {:induction false} TakenCount(ids: set<nat>)
    ensures |set i | i in ids :: RowSlot(i)| == |ids|
  {
    if ids != {} {
      var a :| a in ids;
      var rest := ids - {a};
      TakenCount(rest);
      assert (set i | i in ids :: RowSlot(i)) == (set i | i in rest :: RowSlot(i)) + {RowSlot(a)};
    }
  }

  lemma SlotsBound(s: Room)
    ensures CountJoined(s.rows) <= |Slots(s)| <= CountJoined(s.rows) + |s.joins|
  {
    TakenCount(JoinedIds(s.rows));
    SetSizes(TakenSlots(s), Slots(s));
    var slotOf := id => if id in s.joins then SlotOf(id, s.joins[id]) else NewSlot(id);
    var all := Image(s.joins.Keys, slotOf);
    ImageBound(s.joins.Keys, slotOf);
    forall x | x in ClaimedSlots(s) ensures x in all {
      var id :| id in s.joins && MayTake(s.joins[id], s.max) && x == SlotOf(id, s.joins[id]);
      assert id in s.joins.Keys && x == slotOf(id);
    }
    SetSizes(ClaimedSlots(s), all);
    assert |s.joins.Keys| == |s.joins|;
    assert |Slots(s)| == |TakenSlots(s)| + |ClaimedSlots(s)| - |TakenSlots(s) * ClaimedSlots(s)|;
  }

  lemma SetSizes<T>(a: set<T>, b: set<T>)
    requires a <= b
    ensures |a| <= |b|
  {
    assert b == a + (b - a);
  }

  // ---------- every step keeps it ----------

  ghost predicate Claims(s: Room, id: JoinId, x: Slot) {
    id in s.joins && MayTake(s.joins[id], s.max) && SlotOf(id, s.joins[id]) == x
  }

  lemma ClaimedIff(s: Room, x: Slot)
    ensures x in ClaimedSlots(s) <==> exists id :: Claims(s, id, x)
  {
    if x in ClaimedSlots(s) {
      var id :| id in s.joins && MayTake(s.joins[id], s.max) && x == SlotOf(id, s.joins[id]);
      assert Claims(s, id, x);
    }
  }

  // Nothing new is taken and every claim was a claim before.
  lemma NothingNew(s: Room, r: Room)
    requires forall i | i in JoinedIds(r.rows) :: RowSlot(i) in Slots(s)
    requires forall id, x | Claims(r, id, x) :: Claims(s, id, x)
    ensures |Slots(r)| <= |Slots(s)|
  {
    forall x | x in Slots(r) ensures x in Slots(s) {
      ClaimedIff(r, x);
      ClaimedIff(s, x);
    }
    SetSizes(Slots(r), Slots(s));
  }

  // The slot of join `id` is given up for another one.
  lemma Traded(s: Room, r: Room, id: JoinId, b: Slot)
    requires Claims(s, id, NewSlot(id))
    requires forall i | i in JoinedIds(r.rows) :: RowSlot(i) == b || i in JoinedIds(s.rows)
    requires forall k, x | Claims(r, k, x) :: (k == id && x == b) || (k != id && Claims(s, k, x))
    ensures |Slots(r)| <= |Slots(s)|
  {
    var a := NewSlot(id);
    var rest := Slots(s) - {a};
    forall x | x in Slots(r) ensures x in rest + {b} {
      ClaimedIff(r, x);
      ClaimedIff(s, x);
      if x in ClaimedSlots(r) && x != b {
        var k :| Claims(r, k, x);
        assert Claims(s, k, x) && x != a;
      }
    }
    ClaimedIff(s, a);
    SetSizes(Slots(r), rest + {b});
  }

  // One more join in flight claims at most its own slot.
  lemma OneMore(s: Room, r: Room, id: JoinId)
    requires r.rows == s.rows
    requires forall k, x | Claims(r, k, x) :: (k == id && x == NewSlot(id)) || Claims(s, k, x)
    ensures |Slots(r)| <= |Slots(s)| + 1
  {
    forall x | x in Slots(r) ensures x in Slots(s) + {NewSlot(id)} {
      ClaimedIff(r, x);
      ClaimedIff(s, x);
      if x in ClaimedSlots(r) {
        var k :| Claims(r, k, x);
      }
    }
    SetSizes(Slots(r), Slots(s) + {NewSlot(id)});
  }

  // A new join may claim one slot more; it passes the count only below the limit.
  lemma {:induction false} CountKeeps(s: Room, p: nat, id: JoinId, user: UserId)
    requires Inv(s, p) && |Step(s, Count(id, user)).joins| <= p
    ensures Inv(Step(s, Count(id, user)), p)
  {
    if id !in s.joins {
      CountAdds(s, Step(s, Count(id, user)), p, id, user);
    }
  }

  lemma {:induction false} CountAdds(s: Room, r: Room, p: nat, id: JoinId, user: UserId)
    requires |Slots(s)| <= Seats(s.max) - 1 + p && id !in s.joins && |r.joins| <= p
    requires r == s.(joins := s.joins[id := Counted(user, CountJoined(s.rows))])
    ensures |Slots(r)| <= Seats(s.max) - 1 + p
  {
    if CountJoined(s.rows) >= s.max {
      NothingNew(s, r);
    } else {
      SlotsBound(s);
      assert |r.joins| == |s.joins| + 1;
      OneMore(s, r, id);
    }
  }

  // From `s` to `r` no more places are taken or claimed.
  ghost predicate NoMore(s: Room, r: Room) { TargetsExist(r) && r.max == s.max && |Slots(r)| <= |Slots(s)| }

  lemma {:induction false} CheckKeeps(s: Room, id: JoinId, row: nat)
    requires TargetsExist(s)
    ensures NoMore(s, Step(s, ReadRow(id, row)))
  {
    if id in s.joins && s.joins[id].Counted? {
      var j := s.joins[id];
      var r := Check(s, id, j.userId, j.count, row);
      if r.joins == s.joins - {id} || r == s {
        NothingNew(s, r);
      } else if HasRow(s.rows, j.userId) {
        PassesWithRow(s, r, id, row);
      } else {
        NothingNew(s, r);
      }
    }
  }

  // A join that has counted passes the check with row `row`.
  lemma {:induction false} PassesWithRow(s: Room, r: Room, id: JoinId, row: nat)
    requires TargetsExist(s) && id in s.joins && s.joins[id].Counted? && row < |s.rows|
    requires r == s.(joins := s.joins[id := Passed(s.joins[id].userId, Some(row))])
    requires s.rows[row].status == Joined || s.joins[id].count < s.max
    ensures NoMore(s, r)
  {
    if s.joins[id].count < s.max {
      assert Claims(s, id, NewSlot(id));
      Traded(s, r, id, RowSlot(row));
    } else {
      TradedForTaken(s, r, id, row);
    }
  }

  // Passing the check thanks to a row that is joined already claims nothing new.
  lemma TradedForTaken(s: Room, r: Room, id: JoinId, row: nat)
    requires r.rows == s.rows && row in JoinedIds(s.rows)
    requires forall k, x | Claims(r, k, x) :: (k == id && x == RowSlot(row)) || Claims(s, k, x)
    ensures |Slots(r)| <= |Slots(s)|
  {
    forall x | x in Slots(r) ensures x in Slots(s) {
      ClaimedIff(r, x);
      ClaimedIff(s, x);
      if x in ClaimedSlots(r) {
        var k :| Claims(r, k, x);
      }
    }
    SetSizes(Slots(r), Slots(s));
  }

  lemma {:induction false} WriteKeeps(s: Room, id: JoinId)
    requires TargetsExist(s)
    ensures NoMore(s, Step(s, WriteRow(id)))
  {
    var r := Step(s, WriteRow(id));
    if id in s.joins && s.joins[id].Passed? {
      match s.joins[id].target
      case Some(i) => UpdateKeeps(s, r, id, i);
      case None => InsertKeeps(s, r, id, r.rows[|s.rows|]);
    }
  }

  lemma InsertKeeps(s: Room, r: Room, id: JoinId, row: Row)
    requires id in s.joins && s.joins[id].Passed? && s.joins[id].target == None
    requires r == s.(joins := s.joins - {id}, rows := s.rows + [row])
    ensures |Slots(r)| <= |Slots(s)|
  {
    assert Claims(s, id, NewSlot(id));
    Traded(s, r, id, RowSlot(|s.rows|));
  }

  lemma UpdateKeeps(s: Room, r: Room, id: JoinId, i: nat)
    requires id in s.joins && s.joins[id].Passed? && s.joins[id].target == Some(i) && i < |s.rows|
    requires r == s.(joins := s.joins - {id}, rows := WithStatus(s.rows, i, Joined))
    ensures |Slots(r)| <= |Slots(s)|
  {
    assert Claims(s, id, RowSlot(i));
    ClaimedIff(s, RowSlot(i));
    assert forall k | k in JoinedIds(r.rows) :: k == i || k in JoinedIds(s.rows);
    NothingNew(s, r);
  }

  lemma {:induction false} OtherKeeps(s: Room, a: Action)
    requires TargetsExist(s) && !a.Count? && !a.ReadRow? && !a.WriteRow?
    ensures NoMore(s, Step(s, a))
  {
    var r := Step(s, a);
    assert forall i | i in JoinedIds(r.rows) :: i in JoinedIds(s.rows);
    assert forall id | id in r.joins :: id in s.joins && r.joins[id] == s.joins[id];
    NothingNew(s, r);
  }

  lemma {:induction false} StepKeeps(s: Room, p: nat, a: Action)
    requires Inv(s, p) && |Step(s, a).joins| <= p
    ensures Inv(Step(s, a), p)
  {
    if a.Count? {
      CountKeeps(s, p, a.id, a.user);
    } else {
      OnlyCountsAdd(s, a);
      StillWithin(s, Step(s, a), p);
    }
  }

  lemma StillWithin(s: Room, r: Room, p: nat)
    requires Inv(s, p) && NoMore(s, r)
    ensures Inv(r, p)
  {
  }

  lemma {:induction false} OnlyCountsAdd(s: Room, a: Action)
    requires TargetsExist(s) && !a.Count?
    ensures NoMore(s, Step(s, a))
  {
    match a
    case ReadRow(id, row) => CheckKeeps(s, id, row);
    case WriteRow(id) => WriteKeeps(s, id);
    case _ => OtherKeeps(s, a);
  }

  lemma {:induction false} RunKeeps(s: Room, actions: seq<Action>, p: nat)
    requires Inv(s, p) && Within(s, actions, p)
    ensures Inv(Run(s, actions), p)
  {
    if actions != [] {
      var before := actions[..|actions| - 1];
      forall i | 0 <= i <= |before| ensures |Run(s, before[..i]).joins| <= p {
        assert before[..i] == actions[..i];
      }
      RunKeeps(s, before, p);
      assert actions[..|actions|] == actions;
      StepKeeps(Run(s, before), p, actions[|actions| - 1]);
    }
  }

  lemma {:induction false} MaxStays(s: Room, actions: seq<Action>)
    ensures Run(s, actions).max == s.max
  {
    if actions != [] { MaxStays(s, actions[..|actions| - 1]); }
  }

  // With never more than `p` inserts and joins between check and write, the joined rows never exceed
  // the limit by more than p - 1. With p = 1, that is when nobody joins before the creator is in and
  // the joins come one after the other, the limit is exact, although invitations may give a user
  // several rows. A limit below one leaves the creator alone.
  lemma CapacityHolds(creator: UserId, requested: int, most: int, id: JoinId, actions: seq<Action>, p: nat)
    requires Within(Created(creator, requested, most, id), actions, p)
    ensures var max := Limit(requested, most);
      CountJoined(Run(Created(creator, requested, most, id), actions).rows) <= (if max < 1 then 1 else max) - 1 + p
  {
    var s := Created(creator, requested, most, id);
    assert Run(s, actions[..0]) == s;
    SlotsBound(s);
    assert JoinedIds(s.rows) == {};
    RunKeeps(s, actions, p);
    MaxStays(s, actions);
    SlotsBound(Run(s, actions));
  }

  // ---------- the bound is reached ----------

  lemma {:induction false} RunLast(s: Room, a: seq<Action>, x: Action)
    ensures Run(s, a + [x]) == Step(Run(s, a), x)
  {
    assert (a + [x])[..|a|] == a;
  }

  lemma {:induction false} SplitLast<T>(a: seq<T>, b: seq<T>)
    requires b != []
    ensures a + b == a + b[..|b| - 1] + [b[|b| - 1]]
    ensures b == b[..|b| - 1] + [b[|b| - 1]]
  {
  }

  lemma {:induction false} RunConcat(s: Room, a: seq<Action>, b: seq<Action>)
    ensures Run(s, a + b) == Run(Run(s, a), b)
  {
    if b == [] {
      assert a + b == a;
    } else {
      var most, x := b[..|b| - 1], b[|b| - 1];
      RunConcat(s, a, most);
      RunLast(s, a + most, x);
      RunLast(Run(s, a), most, x);
      SplitLast(a, b);
    }
  }

  lemma {:induction false} WithinConcat(s: Room, a: seq<Action>, b: seq<Action>, p: nat)
    requires Within(s, a, p) && Within(Run(s, a), b, p)
    ensures Within(s, a + b, p) && Run(s, a + b) == Run(Run(s, a), b)
  {
    RunConcat(s, a, b);
    forall i | 0 <= i <= |a + b| ensures |Run(s, (a + b)[..i]).joins| <= p {
      if i <= |a| {
        assert (a + b)[..i] == a[..i];
      } else {
        assert (a + b)[..i] == a + b[..i - |a|];
        RunConcat(s, a, b[..i - |a|]);
      }
    }
  }

  lemma {:induction false} WithinOne(s: Room, a: Action, p: nat)
    requires |s.joins| <= p && |Step(s, a).joins| <= p
    ensures Within(s, [a], p) && Run(s, [a]) == Step(s, a)
  {
    assert Run(s, []) == s;
    assert [a][..0] == [] && [a][..1] == [a];
    assert Run(s, [a]) == Step(Run(s, [a][..0]), a);
  }

  ghost predicate UsersBelow(s: Room, n: nat) {
    forall i | 0 <= i < |s.rows| :: s.rows[i].userId < n
  }

  // Joins lo, ..., hi - 1, of the users base + lo, ..., have all counted `count` joined rows.
  ghost predicate Crowd(s: Room, base: nat, lo: nat, hi: nat, count: nat) {
    && lo <= hi && |s.joins| == hi - lo && UsersBelow(s, base + lo)
    && (forall id | id in s.joins :: lo <= id < hi)
    && (forall id | lo <= id < hi :: id in s.joins && s.joins[id] == Counted(base + id, count))
  }

  lemma {:induction false} CountOne(s: Room, base: nat, n: nat, count: nat, p: nat)
    requires Crowd(s, base, 0, n, count) && count == CountJoined(s.rows) && n < p
    ensures Within(s, [Count(n, base + n)], p)
    ensures var r := Run(s, [Count(n, base + n)]);
      r.rows == s.rows && r.max == s.max && Crowd(r, base, 0, n + 1, count)
  {
    var r := Step(s, Count(n, base + n));
    assert |r.joins| == |s.joins| + 1;
    WithinOne(s, Count(n, base + n), p);
  }

  // All of `n` joins count before any of them writes.
  lemma {:induction false} Gather(s: Room, base: nat, n: nat, p: nat) returns (actions: seq<Action>)
    requires s.joins == map[] && UsersBelow(s, base) && n <= p
    ensures Within(s, actions, p) && Run(s, actions).rows == s.rows && Run(s, actions).max == s.max
    ensures Crowd(Run(s, actions), base, 0, n, CountJoined(s.rows))
  {
    actions := [];
    if n == 0 {
      assert Run(s, actions) == s;
    } else {
      var before := Gather(s, base, n - 1, p);
      actions := GatherOne(s, before, base, n - 1, p);
    }
  }

  lemma {:induction false} GatherOne(s: Room, before: seq<Action>, base: nat, n: nat, p: nat) returns (actions: seq<Action>)
    requires n < p && Within(s, before, p) && Run(s, before).rows == s.rows && Run(s, before).max == s.max
    requires Crowd(Run(s, before), base, 0, n, CountJoined(s.rows))
    ensures Within(s, actions, p) && Run(s, actions).rows == s.rows && Run(s, actions).max == s.max
    ensures Crowd(Run(s, actions), base, 0, n + 1, CountJoined(s.rows))
  {
    CountOne(Run(s, before), base, n, CountJoined(s.rows), p);
    WithinConcat(s, before, [Count(n, base + n)], p);
    actions := before + [Count(n, base + n)];
  }

  lemma JoinedAppend(rows: seq<Row>, row: Row)
    requires row.status == Joined
    ensures CountJoined(rows + [row]) == CountJoined(rows) + 1
  {
    assert (rows + [row])[..|rows|] == rows;
  }

  // The first of them passes its check ...
  lemma {:induction false} CheckOne(s: Room, id: JoinId, user: UserId, count: nat, p: nat)
    requires id in s.joins && s.joins[id] == Counted(user, count) && count < s.max && UsersBelow(s, user)
    requires |s.joins| <= p && |s.joins[id := Passed(user, None)]| <= p
    ensures Within(s, [ReadRow(id, 0)], p)
    ensures Run(s, [ReadRow(id, 0)]) == s.(joins := s.joins[id := Passed(user, None)])
  {
    assert !HasRow(s.rows, user);
    WithinOne(s, ReadRow(id, 0), p);
  }

  // ... and writes.
  lemma {:induction false} WriteOne(s: Room, id: JoinId, user: UserId, p: nat)
    requires id in s.joins && s.joins[id] == Passed(user, None) && |s.joins| <= p && |s.joins - {id}| <= p
    requires UsersBelow(s, user)
    ensures var r := Run(s, [WriteRow(id)]);
      && Within(s, [WriteRow(id)], p) && r.max == s.max && r.joins == s.joins - {id} && UsersBelow(r, user + 1)
      && CountJoined(r.rows) == CountJoined(s.rows) + 1
  {
    var row := Row(user, if user == s.creator then Host else Participant, Joined);
    assert Step(s, WriteRow(id)) == Room(s.max, s.creator, s.rows + [row], s.joins - {id});
    JoinedAppend(s.rows, row);
    WithinOne(s, WriteRow(id), p);
  }

  lemma {:induction false} Resized(joins: map<JoinId, Join>, id: JoinId, j: Join)
    requires id in joins
    ensures |joins[id := j]| == |joins| && |joins[id := j] - {id}| == |joins| - 1
    ensures joins[id := j] - {id} == joins - {id}
  {
    assert joins[id := j].Keys == joins.Keys;
    assert |joins[id := j]| == |joins[id := j].Keys| == |joins|;
    assert (joins - {id}).Keys == joins.Keys - {id};
    assert |joins - {id}| == |(joins - {id}).Keys|;
  }

  lemma {:induction false} LandOne(s: Room, base: nat, lo: nat, hi: nat, count: nat, p: nat) returns (actions: seq<Action>)
    requires Crowd(s, base, lo, hi, count) && count < s.max && lo < hi && hi - lo <= p
    ensures Within(s, actions, p) && Run(s, actions).max == s.max && Counts(actions) == 0
    ensures Crowd(Run(s, actions), base, lo + 1, hi, count)
    ensures CountJoined(Run(s, actions).rows) == CountJoined(s.rows) + 1
  {
    var mid := s.(joins := s.joins[lo := Passed(base + lo, None)]);
    Resized(s.joins, lo, Passed(base + lo, None));
    CheckOne(s, lo, base + lo, count, p);
    WriteOne(mid, lo, base + lo, p);
    actions := [ReadRow(lo, 0)] + [WriteRow(lo)];
    Landed(s, mid, base, lo, hi, count, p);
    NoCounts(lo);
  }

  lemma {:induction false} CountsLast(a: seq<Action>, x: Action)
    ensures Counts(a + [x]) == Counts(a) + (if x.Count? then 1 else 0)
  {
    assert (a + [x])[..|a|] == a;
  }

  lemma {:induction false} CountsConcat(a: seq<Action>, b: seq<Action>)
    ensures Counts(a + b) == Counts(a) + Counts(b)
  {
    if b == [] {
      assert a + b == a;
    } else {
      var most, x := b[..|b| - 1], b[|b| - 1];
      CountsConcat(a, most);
      CountsLast(a + most, x);
      SplitLast(a, b);
    }
  }

  lemma {:induction false} NoCounts(lo: nat)
    ensures Counts([ReadRow(lo, 0)] + [WriteRow(lo)]) == 0
  {
    CountsLast([ReadRow(lo, 0)], WriteRow(lo));
    assert [ReadRow(lo, 0)][..0] == [];
  }

  lemma {:induction false} Landed(s: Room, mid: Room, base: nat, lo: nat, hi: nat, count: nat, p: nat)
    requires Crowd(s, base, lo, hi, count) && lo < hi
    requires Within(s, [ReadRow(lo, 0)], p) && Run(s, [ReadRow(lo, 0)]) == mid && Within(mid, [WriteRow(lo)], p)
    requires var r := Run(mid, [WriteRow(lo)]);
      r.joins == s.joins - {lo} && |r.joins| == |s.joins| - 1 && UsersBelow(r, base + lo + 1)
    ensures Within(s, [ReadRow(lo, 0)] + [WriteRow(lo)], p)
    ensures Run(s, [ReadRow(lo, 0)] + [WriteRow(lo)]) == Run(mid, [WriteRow(lo)])
    ensures Crowd(Run(mid, [WriteRow(lo)]), base, lo + 1, hi, count)
  {
    WithinConcat(s, [ReadRow(lo, 0)], [WriteRow(lo)], p);
  }

  lemma {:induction false} Land(s: Room, base: nat, lo: nat, hi: nat, count: nat, p: nat) returns (actions: seq<Action>)
    requires Crowd(s, base, lo, hi, count) && count < s.max && hi - lo <= p
    ensures Within(s, actions, p) && Run(s, actions).max == s.max && Counts(actions) == 0
    ensures Run(s, actions).joins == map[] && UsersBelow(Run(s, actions), base + hi)
    ensures CountJoined(Run(s, actions).rows) == CountJoined(s.rows) + (hi - lo)
    decreases hi - lo
  {
    actions := [];
    if lo == hi {
      assert Run(s, actions) == s;
      assert |s.joins| == 0 && s.joins == map[];
    } else {
      var first := LandOne(s, base, lo, hi, count, p);
      var rest := Land(Run(s, first), base, lo + 1, hi, count, p);
      WithinConcat(s, first, rest, p);
      CountsConcat(first, rest);
      actions := first + rest;
    }
  }

  // `n` joins that all count first and then all write.
  lemma Burst(s: Room, base: nat, n: nat, p: nat) returns (actions: seq<Action>)
    requires s.joins == map[] && UsersBelow(s, base) && n <= p && CountJoined(s.rows) < s.max
    ensures Within(s, actions, p) && Run(s, actions).max == s.max
    ensures Run(s, actions).joins == map[] && UsersBelow(Run(s, actions), base + n)
    ensures CountJoined(Run(s, actions).rows) == CountJoined(s.rows) + n
  {
    var gather := Gather(s, base, n, p);
    var land := Land(Run(s, gather), base, 0, n, CountJoined(s.rows), p);
    WithinConcat(s, gather, land, p);
    actions := gather + land;
  }

  // Users join one after the other until `n` more are in.
  lemma {:induction false} Fill(s: Room, base: nat, n: nat, p: nat) returns (actions: seq<Action>)
    requires s.joins == map[] && UsersBelow(s, base) && p >= 1 && CountJoined(s.rows) + n <= s.max
    ensures Within(s, actions, p) && Run(s, actions).max == s.max
    ensures Run(s, actions).joins == map[] && UsersBelow(Run(s, actions), base + n)
    ensures CountJoined(Run(s, actions).rows) == CountJoined(s.rows) + n
  {
    actions := [];
    if n == 0 {
      assert Run(s, actions) == s;
    } else {
      var before := Fill(s, base, n - 1, p);
      var one := Burst(Run(s, before), base + (n - 1), 1, p);
      WithinConcat(s, before, one, p);
      actions := before + one;
    }
  }

  // The creator's row goes in first.
  lemma Enter(creator: UserId, requested: int, most: int, id: JoinId, p: nat)
    requires p >= 1
    ensures var s := Created(creator, requested, most, id); var r := Run(s, [WriteRow(id)]);
      && Within(s, [WriteRow(id)], p) && r == Room(s.max, creator, [Row(creator, Host, Joined)], map[])
      && CountJoined(r.rows) == 1
  {
    var s := Created(creator, requested, most, id);
    assert s.joins - {id} == map[];
    assert s.rows + [Row(creator, Host, Joined)] == [Row(creator, Host, Joined)];
    WithinOne(s, WriteRow(id), p);
    assert JoinedIds([Row(creator, Host, Joined)]) == {0};
  }

  // The bound is exact: for every limit of at least two and every `p` some run with at most `p` joins
  // in flight ends with limit - 1 + p joined rows.
  lemma CapacityBoundIsReached(creator: UserId, requested: int, most: int, id: JoinId, p: nat) returns (actions: seq<Action>)
    requires p >= 1 && most >= 2
    ensures Within(Created(creator, requested, most, id), actions, p)
    ensures CountJoined(Run(Created(creator, requested, most, id), actions).rows) == Limit(requested, most) - 1 + p
  {
    var s := Created(creator, requested, most, id);
    Enter(creator, requested, most, id, p);
    var r := Run(s, [WriteRow(id)]);
    var n := r.max - 2;
    var fill := Fill(r, creator + 1, n, p);
    var burst := Burst(Run(r, fill), creator + 1 + n, p, p);
    WithinConcat(r, fill, burst, p);
    WithinConcat(s, [WriteRow(id)], fill + burst, p);
    actions := [WriteRow(id)] + (fill + burst);
  }

  // ---------- joins around the end of the call ----------

  function Counts(actions: seq<Action>): nat {
    if actions == [] then 0 else Counts(actions[..|actions| - 1]) + (if actions[|actions| - 1].Count? then 1 else 0)
  }

  lemma {:induction false} CountAddsOne(s: Room, id: JoinId, user: UserId)
    requires TargetsExist(s)
    ensures var r := Step(s, Count(id, user)); TargetsExist(r) && |Slots(r)| <= |Slots(s)| + 1
  {
    if id !in s.joins { OneMore(s, Step(s, Count(id, user)), id); }
  }

  lemma {:induction false} SlotsGrow(s: Room, actions: seq<Action>)
    requires TargetsExist(s)
    ensures TargetsExist(Run(s, actions)) && |Slots(Run(s, actions))| <= |Slots(s)| + Counts(actions)
  {
    if actions != [] {
      var before, a := Run(s, actions[..|actions| - 1]), actions[|actions| - 1];
      SlotsGrow(s, actions[..|actions| - 1]);
      if a.Count? { CountAddsOne(before, a.id, a.user); } else { OnlyCountsAdd(before, a); }
    }
  }

  lemma {:induction false} EmptyRoomHolds(s: Room, actions: seq<Action>)
    requires TargetsExist(s) && CountJoined(s.rows) == 0
    ensures CountJoined(Run(s, actions).rows) <= |s.joins| + Counts(actions)
  {
    SlotsBound(s);
    SlotsGrow(s, actions);
    SlotsBound(Run(s, actions));
  }

  lemma {:induction false} EndEmpties(s: Room)
    requires TargetsExist(s)
    ensures var e := Step(s, EndAll);
      TargetsExist(e) && CountJoined(e.rows) == 0 && e.joins == s.joins && e.max == s.max && e.rows == AllLeft(s.rows)
  {
    AllLeftEmpties(s.rows);
  }

  // A join that has found the call active goes through after its end. So an ended call has never more
  // joined rows than joins were in flight when it ended, and have counted since.
  lemma {:induction false} EndedRoomHolds(s: Room, actions: seq<Action>)
    requires TargetsExist(s)
    ensures CountJoined(Run(Step(s, EndAll), actions).rows) <= |s.joins| + Counts(actions)
  {
    EndEmpties(s);
    EmptyRoomHolds(Step(s, EndAll), actions);
  }

  lemma {:induction false} CrowdLandsAfterEnd(s: Room, base: nat, n: nat, count: nat) returns (actions: seq<Action>)
    requires Crowd(s, base, 0, n, count) && count < s.max
    ensures Counts(actions) == 0 && CountJoined(Run(Step(s, EndAll), actions).rows) == n
  {
    EndEmpties(s);
    actions := Land(Step(s, EndAll), base, 0, n, count, n);
  }

  // And it can have that many: for every limit of at least two and every n there are n joins in flight
  // at the end of a call that all go through.
  lemma {:induction false} EndedRoomIsFilled(creator: UserId, requested: int, most: int, id: JoinId, n: nat)
    returns (before: seq<Action>, actions: seq<Action>)
    requires most >= 2
    ensures var s := Run(Created(creator, requested, most, id), before);
      && |s.joins| == n && Counts(actions) == 0
      && CountJoined(Run(Step(s, EndAll), actions).rows) == n
  {
    var c := Created(creator, requested, most, id);
    Enter(creator, requested, most, id, n + 1);
    var r := Run(c, [WriteRow(id)]);
    var gather := Gather(r, creator + 1, n, n);
    RunConcat(c, [WriteRow(id)], gather);
    before := [WriteRow(id)] + gather;
    actions := CrowdLandsAfterEnd(Run(r, gather), creator + 1, n, 1);
  }

  // ---------- joins before the creator is in ----------

  predicate Concerns(a: Action, id: JoinId) {
    match a
    case Count(i, _) => i == id
    case ReadRow(i, _) => i == id
    case WriteRow(i) => i == id
    case Fail(i) => i == id
    case _ => false
  }

  function Beside(s: Room, id: JoinId, j: Join): Room { s.(joins := s.joins[id := j]) }

  lemma PutsCommute(joins: map<JoinId, Join>, id: JoinId, j: Join, other: JoinId, k: Join)
    requires other != id
    ensures joins[id := j][other := k] == joins[other := k][id := j]
    ensures joins[id := j] - {other} == (joins - {other})[id := j]
  {
  }

  // A join that waits is not noticed by the others.
  lemma StepBeside(s: Room, a: Action, id: JoinId, j: Join)
    requires id !in s.joins && !Concerns(a, id)
    ensures id !in Step(s, a).joins && Step(Beside(s, id, j), a) == Beside(Step(s, a), id, j)
  {
    match a {
      case Count(i, user) => PutsCommute(s.joins, id, j, i, Counted(user, CountJoined(s.rows)));
      case ReadRow(i, row) => CheckBeside(s, i, row, id, j);
      case WriteRow(i) => PutsCommute(s.joins, id, j, i, j);
      case Fail(i) => PutsCommute(s.joins, id, j, i, j);
      case _ =>
    }
  }

  lemma CheckBeside(s: Room, i: JoinId, row: nat, id: JoinId, j: Join)
    requires id !in s.joins && i != id
    ensures id !in Step(s, ReadRow(i, row)).joins
    ensures Step(Beside(s, id, j), ReadRow(i, row)) == Beside(Step(s, ReadRow(i, row)), id, j)
  {
    if i in s.joins {
      PutsCommute(s.joins, id, j, i, Passed(s.joins[i].userId, Some(row)));
      PutsCommute(s.joins, id, j, i, Passed(s.joins[i].userId, None));
    }
  }

  lemma {:induction false} RunBeside(s: Room, actions: seq<Action>, id: JoinId, j: Join)
    requires id !in s.joins && forall i | 0 <= i < |actions| :: !Concerns(actions[i], id)
    ensures id !in Run(s, actions).joins && Run(Beside(s, id, j), actions) == Beside(Run(s, actions), id, j)
  {
    if actions != [] {
      var n := |actions| - 1;
      RunBeside(s, actions[..n], id, j);
      StepBeside(Run(s, actions[..n]), actions[n], id, j);
    }
  }

  lemma {:induction false} UnusedId(actions: seq<Action>) returns (id: JoinId)
    ensures forall i, k: JoinId | 0 <= i < |actions| && k >= id :: !Concerns(actions[i], k)
  {
    id := 0;
    if actions != [] {
      var n := |actions| - 1;
      id := UnusedId(actions[..n]);
      match actions[n] {
        case Count(i, _) => id := id + i + 1;
        case ReadRow(i, _) => id := id + i + 1;
        case WriteRow(i) => id := id + i + 1;
        case Fail(i) => id := id + i + 1;
        case _ =>
      }
    }
  }

  // All along the run the creator's insert waits, and at most one join is in flight beside it.
  ghost predicate OneByOne(s: Room, actions: seq<Action>, id: JoinId) {
    forall i | 0 <= i <= |actions| :: id in Run(s, actions[..i]).joins && |Run(s, actions[..i]).joins| <= 2
  }

  lemma BesideOneByOne(s: Room, actions: seq<Action>, id: JoinId, j: Join)
    requires id !in s.joins && Within(s, actions, 1) && forall i | 0 <= i < |actions| :: !Concerns(actions[i], id)
    ensures OneByOne(Beside(s, id, j), actions, id)
  {
    forall i | 0 <= i <= |actions|
      ensures id in Run(Beside(s, id, j), actions[..i]).joins && |Run(Beside(s, id, j), actions[..i]).joins| <= 2
    {
      RunBeside(s, actions[..i], id, j);
      var joins := Run(s, actions[..i]).joins;
      assert |joins[id := j]| == |joins| + 1;
    }
  }

  // Joins one after the other fill the call before its creator is in, and then the creator, whom
  // nothing counts, is one too many: for every limit.
  lemma LateCreatorOverfills(creator: UserId, requested: int, most: nat) returns (id: JoinId, actions: seq<Action>)
    ensures var s := Created(creator, requested, most, id);
      && OneByOne(s, actions, id)
      && CountJoined(Run(s, actions + [WriteRow(id)]).rows) == Limit(requested, most) + 1
  {
    var empty := Room(Limit(requested, most), creator, [], map[]);
    actions := Fill(empty, creator + 1, empty.max, 1);
    id := UnusedId(actions);
    var j := Passed(creator, None);
    BesideOneByOne(empty, actions, id, j);
    RunBeside(empty, actions, id, j);
    var s := Created(creator, requested, most, id);
    assert s == Beside(empty, id, j);
    RunConcat(s, actions, [WriteRow(id)]);
    assert Run(Run(s, actions), [WriteRow(id)][..0]) == Run(s, actions);
    LastWrite(Run(empty, actions), id, creator);
  }

  lemma LastWrite(s: Room, id: JoinId, user: UserId)
    ensures CountJoined(Run(Beside(s, id, Passed(user, None)), [WriteRow(id)]).rows) == CountJoined(s.rows) + 1
  {
    var b := Beside(s, id, Passed(user, None));
    assert [WriteRow(id)][..0] == [];
    assert Run(b, [WriteRow(id)]) == Step(Run(b, []), WriteRow(id));
    JoinedAppend(s.rows, Row(user, if user == s.creator then Host else Participant, Joined));
  }
}
