/**
 The handlers of server/routes/groupCalls.ts on one call, each running without interruption. The
 row a query without ORDER BY returns first is a parameter of the functions and arbitrary in the
 methods.
 */
module GroupCallRoom {
  import opened Wrappers
  import opened GroupCallRows
  import Capacity = GroupCallCapacity

  datatype Call = Call(tenant: nat, creator: UserId, max: int, active: bool, rows: seq<Row>)

  // How a request names the call: the id of the call, the id of its room, or anything else.
  datatype Reference = ByCallId | ByRoomId | Unknown

  datatype Result =
    | Ok
    | CallNotFound
    | TenantMismatch
    | CallNotActive
    | RoomFull
    | NotAParticipant
    | HostOnly
    | EmptyRequest
    | ServerError

  // `create` inserts the call, which others can find from then on by a room id the client chose, and
  // its creator after an `await`.
  function Opened(tenant: nat, creator: UserId, requested: int, most: int): Call {
    Call(tenant, creator, Capacity.Limit(requested, most), true, [])
  }

  function Entered(c: Call): Call { c.(rows := c.rows + [Row(c.creator, Host, Joined)]) }

  function Create(tenant: nat, creator: UserId, requested: int, most: int): Call {
    Entered(Opened(tenant, creator, requested, most))
  }

  // ---------- join ----------

  function JoinResult(c: Call, ref: Reference, user: UserId, tenant: nat, pick: nat): Result
    requires HasRow(c.rows, user) ==> Owns(c.rows, user, pick)
  {
    if ref.Unknown? || tenant != c.tenant then CallNotFound
    else if !c.active then CallNotActive
    else if !(HasRow(c.rows, user) && c.rows[pick].status == Joined) && CountJoined(c.rows) >= c.max then RoomFull
    else Ok
  }

  // An existing row keeps its role; a new row makes the creator host again.
  function JoinRows(c: Call, user: UserId, pick: nat): seq<Row>
    requires HasRow(c.rows, user) ==> Owns(c.rows, user, pick)
  {
    if HasRow(c.rows, user) then WithStatus(c.rows, pick, Joined)
    else c.rows + [Row(user, if c.creator == user then Host else Participant, Joined)]
  }

  // ---------- leave ----------

  function LeaveResult(c: Call, ref: Reference, user: UserId, tenant: nat): Result {
    if ref.Unknown? then CallNotFound
    else if tenant != c.tenant then TenantMismatch
    else if !HasRow(c.rows, user) then NotAParticipant
    else Ok
  }

  // The row left behind, then the end of the call or the hand-over to the joined row `heir`.
  function LeaveCall(c: Call, pick: nat, heir: nat): Call
    requires pick < |c.rows|
    requires Remaining(c, pick) ==> heir < |c.rows|
  {
    var rows := WithStatus(c.rows, pick, Left);
    if !Remaining(c, pick) then c.(rows := rows, active := false)
    else if c.rows[pick].role == Host then c.(rows := rows[heir := rows[heir].(role := Host)])
    else c.(rows := rows)
  }

  predicate AnyJoined(rows: seq<Row>) { exists i | 0 <= i < |rows| :: rows[i].status == Joined }

  predicate Remaining(c: Call, pick: nat)
    requires pick < |c.rows|
  {
    AnyJoined(WithStatus(c.rows, pick, Left))
  }

  predicate IsHeir(c: Call, pick: nat, heir: nat)
    requires pick < |c.rows|
  {
    heir < |c.rows| && heir != pick && c.rows[heir].status == Joined
  }

  // ---------- end ----------

  // The statements of `/end` are keyed by the id that the request came with. Two updates compare it
  // with the id of the call; the event inserted last refers to it, and the database refuses an event
  // that refers to no call (server/bootstrap.ts:236). No transaction encloses them.
  function CallUpdated(c: Call, ref: Reference): Call { if ref.ByCallId? then c.(active := false) else c }

  function RowsUpdated(c: Call, ref: Reference): Call { if ref.ByCallId? then c.(rows := AllLeft(c.rows)) else c }

  predicate EventStored(ref: Reference) { ref.ByCallId? }

  predicate MayEnd(c: Call, user: UserId, pick: nat)
    requires HasRow(c.rows, user) ==> Owns(c.rows, user, pick)
  {
    (HasRow(c.rows, user) && c.rows[pick].role == Host) || c.creator == user
  }

  function EndHandler(c: Call, ref: Reference, user: UserId, tenant: nat, pick: nat): (Call, Result)
    requires HasRow(c.rows, user) ==> Owns(c.rows, user, pick)
  {
    if ref.Unknown? then (c, CallNotFound)
    else if tenant != c.tenant then (c, TenantMismatch)
    else if !MayEnd(c, user, pick) then (c, HostOnly)
    else (RowsUpdated(CallUpdated(c, ref), ref), if EventStored(ref) then Ok else ServerError)
  }

  // ---------- invite ----------

  // `/invite` looks the call up by its own id only.
  function InviteResult(c: Call, ref: Reference, caller: UserId, tenant: nat, users: seq<UserId>): Result {
    if users == [] then EmptyRequest
    else if !ref.ByCallId? then CallNotFound
    else if tenant != c.tenant then TenantMismatch
    else if !c.active then CallNotActive
    else if !(exists i | 0 <= i < |c.rows| :: c.rows[i].userId == caller && c.rows[i].status == Joined) then NotAParticipant
    else Ok
  }

  // Users of other tenants and users that do not exist are skipped.
  function InvitedRows(users: seq<UserId>, sameTenant: set<UserId>): seq<Row> {
    if users == [] then []
    else
      var last := users[|users| - 1];
      InvitedRows(users[..|users| - 1], sameTenant) + (if last in sameTenant then [Row(last, Participant, Invited)] else [])
  }

  // ---------- runs ----------

  datatype Op =
    | Join(ref: Reference, user: UserId, tenant: nat, pick: nat)
    | Leave(ref: Reference, user: UserId, tenant: nat, pick: nat, heir: nat)
    | End(ref: Reference, user: UserId, tenant: nat, pick: nat)
    | Invite(ref: Reference, user: UserId, tenant: nat, users: seq<UserId>, sameTenant: set<UserId>)
    | WebhookUserLeft(user: UserId)
    | WebhookFinished
    | EnterCreator                                // the second insert of `create`

  // The row an operation works on is one the database may return.
  predicate Possible(c: Call, op: Op) {
    match op
    case Join(_, user, _, pick) => HasRow(c.rows, user) ==> Owns(c.rows, user, pick)
    case Leave(ref, user, tenant, pick, heir) => LeaveResult(c, ref, user, tenant).Ok? ==>
      Owns(c.rows, user, pick) && (Remaining(c, pick) ==> IsHeir(c, pick, heir))
    case End(_, user, _, pick) => HasRow(c.rows, user) ==> Owns(c.rows, user, pick)
    case _ => true
  }

  function Step(c: Call, op: Op): Call
    requires Possible(c, op)
  {
    match op
    case Join(ref, user, tenant, pick) =>
      if JoinResult(c, ref, user, tenant, pick).Ok? then c.(rows := JoinRows(c, user, pick)) else c
    case Leave(ref, user, tenant, pick, heir) =>
      if LeaveResult(c, ref, user, tenant).Ok? then LeaveCall(c, pick, heir) else c
    case End(ref, user, tenant, pick) => EndHandler(c, ref, user, tenant, pick).0
    case Invite(ref, user, tenant, users, sameTenant) =>
      if InviteResult(c, ref, user, tenant, users).Ok? then c.(rows := c.rows + InvitedRows(users, sameTenant)) else c
    case WebhookUserLeft(user) => c.(rows := UserLeft(c.rows, user))
    case WebhookFinished => c.(active := false)
    case EnterCreator => Entered(c)
  }

  // ---------- hosts ----------

  predicate JoinedHost(rows: seq<Row>, i: nat) {
    i < |rows| && rows[i].role == Host && rows[i].status == Joined
  }

  // An active call has a joined host; an ended call has nobody joined.
  ghost predicate Hosted(c: Call) {
    if c.active then exists i: nat :: JoinedHost(c.rows, i) else !AnyJoined(c.rows)
  }

  lemma JoinKeepsHost(c: Call, user: UserId, pick: nat)
    requires Hosted(c) && c.active && (HasRow(c.rows, user) ==> Owns(c.rows, user, pick))
    ensures Hosted(c.(rows := JoinRows(c, user, pick)))
  {
    var i :| JoinedHost(c.rows, i);
    assert JoinedHost(JoinRows(c, user, pick), i);
  }

  lemma LeaveKeepsHost(c: Call, pick: nat, heir: nat)
    requires Hosted(c) && pick < |c.rows| && (Remaining(c, pick) ==> IsHeir(c, pick, heir))
    ensures Hosted(LeaveCall(c, pick, heir))
  {
    var rows := WithStatus(c.rows, pick, Left);
    var r := LeaveCall(c, pick, heir);
    if Remaining(c, pick) {
      var k :| 0 <= k < |rows| && rows[k].status == Joined;
      assert c.rows[k].status == Joined;
      if c.rows[pick].role == Host {
        assert JoinedHost(r.rows, heir);
      } else {
        var i :| JoinedHost(c.rows, i);
        assert JoinedHost(r.rows, i);
      }
    }
  }

  lemma InviteKeepsHost(c: Call, users: seq<UserId>, sameTenant: set<UserId>)
    requires Hosted(c) && c.active
    ensures Hosted(c.(rows := c.rows + InvitedRows(users, sameTenant)))
  {
    var i :| JoinedHost(c.rows, i);
    assert JoinedHost(c.rows + InvitedRows(users, sameTenant), i);
  }

  lemma StepKeepsHost(c: Call, op: Op)
    requires Hosted(c) && Possible(c, op) && !op.WebhookUserLeft? && !op.WebhookFinished? && !op.EnterCreator?
    ensures Hosted(Step(c, op))
  {
    match op
    case Join(ref, user, tenant, pick) =>
      if JoinResult(c, ref, user, tenant, pick).Ok? { JoinKeepsHost(c, user, pick); }
    case Leave(ref, user, tenant, pick, heir) =>
      if LeaveResult(c, ref, user, tenant).Ok? { LeaveKeepsHost(c, pick, heir); }
    case End(ref, user, tenant, pick) =>
    case Invite(ref, user, tenant, users, sameTenant) =>
      if InviteResult(c, ref, user, tenant, users).Ok? { InviteKeepsHost(c, users, sameTenant); }
  }

  ghost predicate IsRun(trace: seq<Call>, ops: seq<Op>) {
    && |trace| == |ops| + 1
    && (exists tenant, creator, requested, most :: trace[0] == Opened(tenant, creator, requested, most))
    && (forall i | 0 <= i < |ops| :: Possible(trace[i], ops[i]) && trace[i + 1] == Step(trace[i], ops[i]))
  }

  // A webhook that leaves another joined host in an active call, or comes after its end; an insert of
  // the creator while the call is active.
  ghost predicate Harmless(c: Call, op: Op) {
    match op
    case WebhookUserLeft(user) => !c.active || exists i: nat :: JoinedHost(c.rows, i) && c.rows[i].userId != user
    case WebhookFinished => !c.active
    case EnterCreator => c.active
    case _ => true
  }

  lemma UserLeftHost(c: Call, user: UserId, i: nat)
    requires i < |c.rows|
    ensures JoinedHost(UserLeft(c.rows, user), i) <==> JoinedHost(c.rows, i) && c.rows[i].userId != user
  {
  }

  // The creator comes in as a joined host.
  lemma EntryHosts(c: Call)
    ensures Hosted(Entered(c)) <==> c.active
    ensures CountJoined(Entered(c).rows) == CountJoined(c.rows) + 1
  {
    assert JoinedHost(Entered(c).rows, |c.rows|);
    assert Entered(c).rows[..|c.rows|] == c.rows;
  }

  // One step breaks what hosts are promised exactly if it is a harmful webhook, or the insert of the
  // creator of a call that has ended before.
  lemma StepHostedIff(c: Call, op: Op)
    requires Hosted(c) && Possible(c, op)
    ensures Hosted(Step(c, op)) <==> Harmless(c, op)
  {
    match op
    case WebhookUserLeft(user) =>
      forall i: nat | i < |c.rows| ensures JoinedHost(UserLeft(c.rows, user), i) <==> JoinedHost(c.rows, i) && c.rows[i].userId != user {
        UserLeftHost(c, user, i);
      }
    case WebhookFinished =>
      if c.active {
        var i: nat :| JoinedHost(c.rows, i);
        assert c.rows[i].status == Joined;
      }
    case EnterCreator => EntryHosts(c);
    case _ => StepKeepsHost(c, op);
  }

  // From the moment at which a call has a joined host, in general the entry of its creator, an active
  // call always has one and an ended call nobody joined, exactly if no later step is harmful.
  lemma AlwaysHosted(trace: seq<Call>, ops: seq<Op>, m: nat)
    requires IsRun(trace, ops) && m < |trace| && Hosted(trace[m])
    ensures (forall i | m <= i < |trace| :: Hosted(trace[i])) <==> forall k | m <= k < |ops| :: Harmless(trace[k], ops[k])
  {
    if forall k | m <= k < |ops| :: Harmless(trace[k], ops[k]) {
      forall i: nat | m <= i < |trace| ensures Hosted(trace[i]) { HostedSoFar(trace, ops, m, i); }
    }
    if forall i | m <= i < |trace| :: Hosted(trace[i]) {
      forall k | m <= k < |ops| ensures Harmless(trace[k], ops[k]) {
        assert Hosted(trace[k]) && Hosted(trace[k + 1]);
        StepHostedIff(trace[k], ops[k]);
      }
    }
  }

  lemma {:induction false} HostedSoFar(trace: seq<Call>, ops: seq<Op>, m: nat, i: nat)
    requires IsRun(trace, ops) && m <= i < |trace| && Hosted(trace[m])
    requires forall k | m <= k < |ops| :: Harmless(trace[k], ops[k])
    ensures Hosted(trace[i])
  {
    if m < i {
      HostedSoFar(trace, ops, m, i - 1);
      StepHostedIff(trace[i - 1], ops[i - 1]);
    }
  }

  // A call whose creator comes in first is hosted from then on exactly if no harmful step comes ...
  lemma EntryFirst(trace: seq<Call>, ops: seq<Op>)
    requires IsRun(trace, ops) && ops != [] && ops[0] == EnterCreator
    ensures (forall i | 1 <= i < |trace| :: Hosted(trace[i])) <==> forall k | 1 <= k < |ops| :: Harmless(trace[k], ops[k])
  {
    EntryHosts(trace[0]);
    AlwaysHosted(trace, ops, 1);
  }

  // ... but a guest who joins by the room id and leaves again first ends the call, and the creator
  // comes in joined to an ended call.
  lemma LateCreatorIsStranded(tenant: nat, creator: UserId, guest: UserId, requested: int, most: int)
    requires most >= 1
    ensures var c := Opened(tenant, creator, requested, most);
      var join, leave := Join(ByRoomId, guest, tenant, 0), Leave(ByRoomId, guest, tenant, 0, 0);
      && Possible(c, join) && Possible(Step(c, join), leave)
      && !Step(Step(c, join), leave).active
      && !Hosted(Step(Step(Step(c, join), leave), EnterCreator))
  {
    var c := Opened(tenant, creator, requested, most);
    var joined := c.(rows := [Row(guest, if creator == guest then Host else Participant, Joined)]);
    FirstGuest(c, guest);
    LastGuest(joined, guest);
    EntryHosts(Step(joined, Leave(ByRoomId, guest, tenant, 0, 0)));
  }

  lemma FirstGuest(c: Call, guest: UserId)
    requires c.active && c.rows == [] && c.max >= 1
    ensures Possible(c, Join(ByRoomId, guest, c.tenant, 0))
    ensures Step(c, Join(ByRoomId, guest, c.tenant, 0))
         == c.(rows := [Row(guest, if c.creator == guest then Host else Participant, Joined)])
  {
    assert !HasRow(c.rows, guest);
  }

  lemma LastGuest(c: Call, guest: UserId)
    requires |c.rows| == 1 && c.rows[0].userId == guest
    ensures Possible(c, Leave(ByRoomId, guest, c.tenant, 0, 0))
    ensures !Step(c, Leave(ByRoomId, guest, c.tenant, 0, 0)).active
  {
    assert !Remaining(c, 0);
  }

  // Webhooks included: once ended, a call stays ended.
  lemma {:induction false} EndedStaysEnded(trace: seq<Call>, ops: seq<Op>, i: nat, j: nat)
    requires IsRun(trace, ops) && i <= j < |trace| && !trace[i].active
    ensures !trace[j].active
  {
    if i < j {
      EndedStaysEnded(trace, ops, i, j - 1);
      assert trace[j] == Step(trace[j - 1], ops[j - 1]);
    }
  }

  // Both kinds of harmful webhook occur: the last participant can vanish from an active call, and a
  // finished room keeps its joined rows.
  lemma WebhooksBreakHosting(tenant: nat, creator: UserId, requested: int, most: int)
    ensures var c := Create(tenant, creator, requested, most);
      && Hosted(c) && Possible(c, WebhookUserLeft(creator)) && Possible(c, WebhookFinished)
      && !Hosted(Step(c, WebhookUserLeft(creator)))
      && !Hosted(Step(c, WebhookFinished))
  {
    var c := Create(tenant, creator, requested, most);
    assert JoinedHost(c.rows, 0);
    StepHostedIff(c, WebhookUserLeft(creator));
    StepHostedIff(c, WebhookFinished);
  }

  // ---------- how many hosts ----------

  ghost predicate OneHost(c: Call) {
    forall i: nat, j: nat | JoinedHost(c.rows, i) && JoinedHost(c.rows, j) :: i == j
  }

  // While a joined host stands, a join brings back a row that kept the role (or inserts a row for the
  // creator), or a leave picks a row that kept the role without being joined and hands over to
  // somebody else than that host, or the creator's own insert comes late.
  ghost predicate Doubles(c: Call, op: Op)
    requires Possible(c, op)
  {
    match op
    case Join(ref, user, tenant, pick) =>
      && JoinResult(c, ref, user, tenant, pick).Ok?
      && (exists i: nat :: JoinedHost(c.rows, i))
      && BringsHost(c, user, pick)
    case Leave(ref, user, tenant, pick, heir) =>
      && LeaveResult(c, ref, user, tenant).Ok?
      && c.rows[pick].role == Host && c.rows[pick].status != Joined
      && exists i: nat :: JoinedHost(c.rows, i) && i != heir
    case EnterCreator => exists i: nat :: JoinedHost(c.rows, i)
    case _ => false
  }

  // The row a join works on, and whether it comes out as a host that was not one before.
  function JoinSlot(c: Call, user: UserId, pick: nat): nat { if HasRow(c.rows, user) then pick else |c.rows| }

  predicate BringsHost(c: Call, user: UserId, pick: nat)
    requires HasRow(c.rows, user) ==> Owns(c.rows, user, pick)
  {
    if HasRow(c.rows, user) then c.rows[pick].role == Host && c.rows[pick].status != Joined else user == c.creator
  }

  lemma JoinHosts(c: Call, user: UserId, pick: nat, i: nat)
    requires HasRow(c.rows, user) ==> Owns(c.rows, user, pick)
    ensures JoinedHost(JoinRows(c, user, pick), i)
      <==> JoinedHost(c.rows, i) || (i == JoinSlot(c, user, pick) && BringsHost(c, user, pick))
    ensures BringsHost(c, user, pick) ==> !JoinedHost(c.rows, JoinSlot(c, user, pick))
  {
  }

  lemma JoinDoublesIff(c: Call, user: UserId, pick: nat)
    requires OneHost(c) && (HasRow(c.rows, user) ==> Owns(c.rows, user, pick))
    ensures OneHost(c.(rows := JoinRows(c, user, pick)))
      <==> !(BringsHost(c, user, pick) && exists i: nat :: JoinedHost(c.rows, i))
  {
    var rows, slot := JoinRows(c, user, pick), JoinSlot(c, user, pick);
    forall i: nat ensures JoinedHost(rows, i) <==> JoinedHost(c.rows, i) || (i == slot && BringsHost(c, user, pick)) {
      JoinHosts(c, user, pick, i);
    }
    if BringsHost(c, user, pick) && exists i: nat :: JoinedHost(c.rows, i) {
      var i: nat :| JoinedHost(c.rows, i);
      JoinHosts(c, user, pick, i);
      assert JoinedHost(rows, slot) && JoinedHost(rows, i) && i != slot;
    }
  }

  lemma LeaveHosts(c: Call, pick: nat, heir: nat, i: nat)
    requires pick < |c.rows| && (Remaining(c, pick) ==> IsHeir(c, pick, heir))
    ensures JoinedHost(LeaveCall(c, pick, heir).rows, i)
      <==> (i != pick && JoinedHost(c.rows, i)) || (i == heir && c.rows[pick].role == Host && Remaining(c, pick))
    ensures i != pick && JoinedHost(c.rows, i) ==> Remaining(c, pick)
  {
    var left := WithStatus(c.rows, pick, Left);
    if i != pick && JoinedHost(c.rows, i) {
      assert left[i].status == Joined;
    }
  }

  lemma LeaveDoublesIff(c: Call, pick: nat, heir: nat)
    requires OneHost(c) && pick < |c.rows| && (Remaining(c, pick) ==> IsHeir(c, pick, heir))
    ensures var keeps := c.rows[pick].role == Host && c.rows[pick].status != Joined;
      OneHost(LeaveCall(c, pick, heir)) <==> !(keeps && exists i: nat :: JoinedHost(c.rows, i) && i != heir)
  {
    var rows := LeaveCall(c, pick, heir).rows;
    var hands := c.rows[pick].role == Host && Remaining(c, pick);
    forall i: nat ensures JoinedHost(rows, i) <==> (i != pick && JoinedHost(c.rows, i)) || (i == heir && hands) {
      LeaveHosts(c, pick, heir, i);
    }
    if c.rows[pick].role == Host && c.rows[pick].status != Joined && exists i: nat :: JoinedHost(c.rows, i) && i != heir {
      var i: nat :| JoinedHost(c.rows, i) && i != heir;
      LeaveHosts(c, pick, heir, i);
      assert JoinedHost(rows, i) && JoinedHost(rows, heir);
    } else if JoinedHost(c.rows, pick) {
      assert forall i: nat | JoinedHost(c.rows, i) :: i == pick;
    }
  }

  // From at most one joined host a step leads to two exactly if it doubles the host.
  lemma OneHostStepIff(c: Call, op: Op)
    requires OneHost(c) && Possible(c, op)
    ensures OneHost(Step(c, op)) <==> !Doubles(c, op)
  {
    match op
    case Join(ref, user, tenant, pick) =>
      if JoinResult(c, ref, user, tenant, pick).Ok? { JoinDoublesIff(c, user, pick); }
    case Leave(ref, user, tenant, pick, heir) =>
      if LeaveResult(c, ref, user, tenant).Ok? { LeaveDoublesIff(c, pick, heir); }
    case Invite(ref, user, tenant, users, sameTenant) =>
      InvitedAreNoHosts(c, users, sameTenant);
    case WebhookUserLeft(user) =>
      forall i: nat | JoinedHost(UserLeft(c.rows, user), i) ensures JoinedHost(c.rows, i) { UserLeftHost(c, user, i); }
    case EnterCreator => EntryDoublesIff(c);
    case End(_, _, _, _) =>
    case WebhookFinished =>
  }

  lemma EntryDoublesIff(c: Call)
    requires OneHost(c)
    ensures OneHost(Entered(c)) <==> !(exists i: nat :: JoinedHost(c.rows, i))
  {
    var rows, n := Entered(c).rows, |c.rows|;
    assert forall i: nat :: JoinedHost(rows, i) <==> JoinedHost(c.rows, i) || i == n;
    if exists i: nat :: JoinedHost(c.rows, i) {
      var i: nat :| JoinedHost(c.rows, i);
      assert JoinedHost(rows, i) && JoinedHost(rows, n);
    }
  }

  lemma InvitedAreNoHosts(c: Call, users: seq<UserId>, sameTenant: set<UserId>)
    ensures forall i: nat :: JoinedHost(c.rows + InvitedRows(users, sameTenant), i) <==> JoinedHost(c.rows, i)
  {
    InvitedArePlain(users, sameTenant);
  }

  lemma {:induction false} InvitedArePlain(users: seq<UserId>, sameTenant: set<UserId>)
    ensures forall i | 0 <= i < |InvitedRows(users, sameTenant)| :: InvitedRows(users, sameTenant)[i].status == Invited
  {
    if users != [] { InvitedArePlain(users[..|users| - 1], sameTenant); }
  }

  // A run, webhooks included, has at most one joined host throughout exactly if no step doubles it.
  lemma OneHostIff(trace: seq<Call>, ops: seq<Op>)
    requires IsRun(trace, ops)
    ensures (forall i | 0 <= i < |trace| :: OneHost(trace[i])) <==> forall k | 0 <= k < |ops| :: !Doubles(trace[k], ops[k])
  {
    if forall k | 0 <= k < |ops| :: !Doubles(trace[k], ops[k]) {
      forall i: nat | i < |trace| ensures OneHost(trace[i]) { OneHostSoFar(trace, ops, i); }
    }
    if forall i | 0 <= i < |trace| :: OneHost(trace[i]) {
      forall k | 0 <= k < |ops| ensures !Doubles(trace[k], ops[k]) {
        assert OneHost(trace[k]) && OneHost(trace[k + 1]);
        OneHostStepIff(trace[k], ops[k]);
      }
    }
  }

  lemma {:induction false} OneHostSoFar(trace: seq<Call>, ops: seq<Op>, i: nat)
    requires IsRun(trace, ops) && i < |trace|
    requires forall k | 0 <= k < |ops| :: !Doubles(trace[k], ops[k])
    ensures OneHost(trace[i])
  {
    if i > 0 {
      OneHostSoFar(trace, ops, i - 1);
      OneHostStepIff(trace[i - 1], ops[i - 1]);
    }
  }

  // Both kinds of doubling occur. A leaver may rejoin into the row that kept its role.
  lemma RejoiningHostDoubles(c: Call, host: UserId, pick: nat, heir: nat)
    requires c.active && Owns(c.rows, host, pick) && JoinedHost(c.rows, pick) && IsHeir(c, pick, heir) && CountJoined(c.rows) <= c.max
    requires c.rows[heir].userId != host
    ensures var leave, join := Leave(ByCallId, host, c.tenant, pick, heir), Join(ByCallId, host, c.tenant, pick);
      && Possible(c, leave) && Possible(Step(c, leave), join)
      && JoinedHost(Step(Step(c, leave), join).rows, pick) && JoinedHost(Step(Step(c, leave), join).rows, heir)
  {
    var left := WithStatus(c.rows, pick, Left);
    assert left[heir].status == Joined;
    var leave := Leave(ByCallId, host, c.tenant, pick, heir);
    LeaveCounts(c, ByCallId, host, c.tenant, pick, heir);
    var r := Step(c, leave);
    assert r.rows[pick].userId == host;
  }

  // Or leave a second time: the row that has left already hands the role over once more.
  lemma LeavingTwiceDoubles(c: Call, host: UserId, pick: nat, heir: nat, next: nat)
    requires c.active && Owns(c.rows, host, pick) && JoinedHost(c.rows, pick)
    requires IsHeir(c, pick, heir) && IsHeir(c, pick, next) && heir != next
    ensures var first, second := Leave(ByCallId, host, c.tenant, pick, heir), Leave(ByCallId, host, c.tenant, pick, next);
      && Possible(c, first) && Possible(Step(c, first), second)
      && JoinedHost(Step(Step(c, first), second).rows, heir) && JoinedHost(Step(Step(c, first), second).rows, next)
  {
    var left := WithStatus(c.rows, pick, Left);
    assert left[heir].status == Joined;
    var r := Step(c, Leave(ByCallId, host, c.tenant, pick, heir));
    assert r.rows == left[heir := left[heir].(role := Host)];
    assert r.rows[pick].userId == host;
    assert WithStatus(r.rows, pick, Left)[heir].status == Joined;
  }

  // ---------- ending for everyone ----------

  // Although nothing encloses its statements, `/end` takes effect as a whole and says so, or changes
  // nothing and answers an error. It takes effect exactly if a host names the call by its own id: by
  // the id of the room nobody can end it.
  lemma EndIsAllOrNothing(c: Call, ref: Reference, user: UserId, tenant: nat, pick: nat)
    requires Possible(c, End(ref, user, tenant, pick))
    ensures var (r, result) := EndHandler(c, ref, user, tenant, pick);
      var host := user == c.creator || (HasRow(c.rows, user) && c.rows[pick].role == Host);
      && (result == CallNotFound <==> ref == Unknown)
      && (result == TenantMismatch <==> ref != Unknown && tenant != c.tenant)
      && (result == HostOnly <==> ref != Unknown && tenant == c.tenant && !host)
      && (result == ServerError <==> ref == ByRoomId && tenant == c.tenant && host)
      && (result == Ok <==> ref == ByCallId && tenant == c.tenant && host)
      && Step(c, End(ref, user, tenant, pick)) == r
      && (result != Ok ==> r == c)
      && (result == Ok ==>
            && r == Call(c.tenant, c.creator, c.max, false, r.rows) && |JoinedIds(r.rows)| == 0 && |r.rows| == |c.rows|
            && forall i | 0 <= i < |c.rows| :: r.rows[i]
                 == if c.rows[i].status == Joined then Row(c.rows[i].userId, c.rows[i].role, Left) else c.rows[i])
  {
    AllLeftEmpties(c.rows);
  }

  lemma NobodyComesBack(c: Call, op: Op)
    requires Possible(c, op) && op != EnterCreator && !c.active && !AnyJoined(c.rows)
    ensures !Step(c, op).active && !AnyJoined(Step(c, op).rows)
  {
  }

  // In every run: after a successful `/end` nobody is ever joined again, unless the creator's own
  // insert is still to come.
  lemma {:induction false} EndEmptiesForGood(trace: seq<Call>, ops: seq<Op>, k: nat, j: nat)
    requires IsRun(trace, ops) && k < j < |trace| && ops[k].End?
    requires EndHandler(trace[k], ops[k].ref, ops[k].user, ops[k].tenant, ops[k].pick).1.Ok?
    requires forall i | k < i < j :: ops[i] != EnterCreator
    ensures !trace[j].active && !AnyJoined(trace[j].rows)
  {
    if j == k + 1 {
      EndIsAllOrNothing(trace[k], ops[k].ref, ops[k].user, ops[k].tenant, ops[k].pick);
    } else {
      EndEmptiesForGood(trace, ops, k, j - 1);
      NobodyComesBack(trace[j - 1], ops[j - 1]);
    }
  }

  // ---------- what each handler answers and changes ----------

  // A join is refused because no call of the tenant is found, because the call has ended, or because it
  // is full and the row found is not joined already; then nothing changes. Otherwise the row found is
  // joined and keeps its role, or a row is added, for the creator as host.
  lemma {:induction false} JoinExactly(c: Call, ref: Reference, user: UserId, tenant: nat, pick: nat)
    requires Possible(c, Join(ref, user, tenant, pick))
    ensures var result, r := JoinResult(c, ref, user, tenant, pick), Step(c, Join(ref, user, tenant, pick));
      var found := ref != Unknown && tenant == c.tenant;
      var again := HasRow(c.rows, user) && c.rows[pick].status == Joined;
      && (result == CallNotFound <==> !found)
      && (result == CallNotActive <==> found && !c.active)
      && (result == RoomFull <==> found && c.active && !again && |JoinedIds(c.rows)| >= c.max)
      && (result == Ok <==> found && c.active && (again || |JoinedIds(c.rows)| < c.max))
      && (result != Ok ==> r == c)
      && (result == Ok ==> r == c.(rows :=
            if HasRow(c.rows, user) then c.rows[pick := Row(user, c.rows[pick].role, Joined)]
            else c.rows + [Row(user, if user == c.creator then Host else Participant, Joined)]))
  {
  }

  // A leave is refused for a call that is not found, of another tenant, or without a row of the user;
  // then nothing changes. Otherwise the row found has left; if nobody is joined any more the call ends,
  // and if the row had the host role the heir gets it.
  lemma {:induction false} LeaveExactly(c: Call, ref: Reference, user: UserId, tenant: nat, pick: nat, heir: nat)
    requires Possible(c, Leave(ref, user, tenant, pick, heir))
    ensures var result, r := LeaveResult(c, ref, user, tenant), Step(c, Leave(ref, user, tenant, pick, heir));
      && (result == CallNotFound <==> ref == Unknown)
      && (result == TenantMismatch <==> ref != Unknown && tenant != c.tenant)
      && (result == NotAParticipant <==> ref != Unknown && tenant == c.tenant && !HasRow(c.rows, user))
      && (result == Ok <==> ref != Unknown && tenant == c.tenant && HasRow(c.rows, user))
      && (result != Ok ==> r == c)
      && (result == Ok ==>
            var others := exists i | 0 <= i < |c.rows| :: i != pick && c.rows[i].status == Joined;
            && r.active == (c.active && others) && |r.rows| == |c.rows|
            && r == Call(c.tenant, c.creator, c.max, r.active, r.rows)
            && forall i | 0 <= i < |c.rows| :: r.rows[i]
                 == if i == pick then Row(user, c.rows[i].role, Left)
                    else if i == heir && others && c.rows[pick].role == Host then Row(c.rows[i].userId, Host, Joined)
                    else c.rows[i])
  {
    if LeaveResult(c, ref, user, tenant).Ok? { RemainingIff(c, pick); }
  }

  lemma {:induction false} LeaveRefusedIff(c: Call, ref: Reference, user: UserId, tenant: nat)
    ensures var result := LeaveResult(c, ref, user, tenant);
      var has := exists i | 0 <= i < |c.rows| :: c.rows[i].userId == user;
      && (result == CallNotFound <==> ref == Unknown)
      && (result == TenantMismatch <==> ref != Unknown && tenant != c.tenant)
      && (result == NotAParticipant <==> ref != Unknown && tenant == c.tenant && !has)
      && (result == Ok <==> ref != Unknown && tenant == c.tenant && has)
  {
  }

  // The row that a handler works on is any row of the user, and the heir any other joined row that the
  // database finds; a handler that finds none goes on without.
  lemma {:induction false} PossibleExactly(c: Call, ref: Reference, user: UserId, tenant: nat, pick: nat, heir: nat)
    ensures var has := exists i | 0 <= i < |c.rows| :: c.rows[i].userId == user;
      var own := pick < |c.rows| && c.rows[pick].userId == user;
      var others := exists i | 0 <= i < |c.rows| :: i != pick && c.rows[i].status == Joined;
      && (Possible(c, Join(ref, user, tenant, pick)) <==> !has || own)
      && (Possible(c, End(ref, user, tenant, pick)) <==> !has || own)
      && (Possible(c, Leave(ref, user, tenant, pick, heir)) <==>
            || ref == Unknown || tenant != c.tenant || !has
            || (own && (others ==> IsHeir(c, pick, heir))))
  {
    LeaveRefusedIff(c, ref, user, tenant);
    if pick < |c.rows| { RemainingIff(c, pick); }
  }

  lemma {:induction false} RemainingIff(c: Call, pick: nat)
    requires pick < |c.rows|
    ensures Remaining(c, pick) <==> exists i | 0 <= i < |c.rows| :: i != pick && c.rows[i].status == Joined
  {
    var left := WithStatus(c.rows, pick, Left);
    if i :| 0 <= i < |c.rows| && i != pick && c.rows[i].status == Joined { assert left[i].status == Joined; }
    if Remaining(c, pick) {
      var i :| 0 <= i < |left| && left[i].status == Joined;
      assert c.rows[i].status == Joined;
    }
  }

  // How often a user is named, and how many rows a user has.
  function Named(users: seq<UserId>, user: UserId): nat { multiset(users)[user] }

  function RowsOf(rows: seq<Row>, user: UserId): nat {
    if rows == [] then 0 else RowsOf(rows[..|rows| - 1], user) + (if rows[|rows| - 1].userId == user then 1 else 0)
  }

  // Every user of the tenant who is named gets one invited participant's row each time, and nobody else.
  lemma {:induction false} InvitedExactly(users: seq<UserId>, sameTenant: set<UserId>, user: UserId)
    ensures forall row | row in InvitedRows(users, sameTenant) :: row == Row(row.userId, Participant, Invited) && row.userId in sameTenant
    ensures RowsOf(InvitedRows(users, sameTenant), user) == if user in sameTenant then Named(users, user) else 0
  {
    if users != [] {
      var most, last := users[..|users| - 1], users[|users| - 1];
      InvitedExactly(most, sameTenant, user);
      assert users == most + [last] && multiset(users) == multiset(most) + multiset{last};
      if last !in sameTenant {
        assert InvitedRows(users, sameTenant) == InvitedRows(most, sameTenant);
      } else {
        RowsOfMore(InvitedRows(most, sameTenant), Row(last, Participant, Invited), user);
      }
    }
  }

  lemma {:induction false} RowsOfMore(rows: seq<Row>, row: Row, user: UserId)
    ensures RowsOf(rows + [row], user) == RowsOf(rows, user) + (if row.userId == user then 1 else 0)
  {
    assert (rows + [row])[..|rows|] == rows;
  }

  // An invitation is refused if it names nobody, if the id is not that of a call, if the call is of
  // another tenant or has ended, or if the caller has no joined row; then nothing changes. Otherwise the
  // rows of the invited come behind the others.
  lemma {:induction false} InviteExactly(c: Call, ref: Reference, caller: UserId, tenant: nat, users: seq<UserId>, sameTenant: set<UserId>)
    ensures var result, r := InviteResult(c, ref, caller, tenant, users), Step(c, Invite(ref, caller, tenant, users, sameTenant));
      var inside := exists i | 0 <= i < |c.rows| :: c.rows[i].userId == caller && c.rows[i].status == Joined;
      && (result == EmptyRequest <==> users == [])
      && (result == CallNotFound <==> users != [] && ref != ByCallId)
      && (result == TenantMismatch <==> users != [] && ref == ByCallId && tenant != c.tenant)
      && (result == CallNotActive <==> users != [] && ref == ByCallId && tenant == c.tenant && !c.active)
      && (result == NotAParticipant <==> users != [] && ref == ByCallId && tenant == c.tenant && c.active && !inside)
      && (result == Ok <==> users != [] && ref == ByCallId && tenant == c.tenant && c.active && inside)
      && r == if result == Ok then c.(rows := c.rows + InvitedRows(users, sameTenant)) else c
  {
  }

  // The webhooks change what they name and nothing else: the user's rows, or whether the call goes on.
  lemma {:induction false} WebhooksExactly(c: Call, user: UserId)
    ensures Step(c, WebhookFinished) == Call(c.tenant, c.creator, c.max, false, c.rows)
    ensures var r := Step(c, WebhookUserLeft(user));
      && r == Call(c.tenant, c.creator, c.max, c.active, r.rows) && |r.rows| == |c.rows|
      && forall i | 0 <= i < |c.rows| :: r.rows[i]
           == if c.rows[i].userId == user then Row(user, c.rows[i].role, Left) else c.rows[i]
  {
  }

  // `create` makes an active call without rows and then the creator its joined host.
  lemma {:induction false} CreateExactly(tenant: nat, creator: UserId, requested: int, most: int)
    ensures var c := Opened(tenant, creator, requested, most);
      && c == Call(tenant, creator, Capacity.Limit(requested, most), true, [])
      && Step(c, EnterCreator) == Call(tenant, creator, Capacity.Limit(requested, most), true, [Row(creator, Host, Joined)])
  {
  }

  // ---------- what join and leave do to the count ----------

  lemma StatusCount(rows: seq<Row>, i: nat, status: Status)
    requires i < |rows|
    ensures CountJoined(WithStatus(rows, i, status)) + (if rows[i].status == Joined then 1 else 0)
         == CountJoined(rows) + (if status == Joined then 1 else 0)
  {
    JoinedAfter(rows, i, status);
    var joined := JoinedIds(rows);
    assert i in joined <==> rows[i].status == Joined;
    assert |joined - {i}| == |joined| - (if i in joined then 1 else 0);
    assert |joined + {i}| == |joined| + (if i in joined then 0 else 1);
  }

  lemma JoinedAfter(rows: seq<Row>, i: nat, status: Status)
    requires i < |rows|
    ensures CountJoined(rows) == |JoinedIds(rows)|
    ensures CountJoined(WithStatus(rows, i, status))
         == |if status == Joined then JoinedIds(rows) + {i} else JoinedIds(rows) - {i}|
  {
    var after := WithStatus(rows, i, status);
    forall j: nat ensures j in JoinedIds(after) <==> j in if status == Joined then JoinedIds(rows) + {i} else JoinedIds(rows) - {i} {
      if j < |rows| && j != i { assert after[j] == rows[j]; }
    }
    assert JoinedIds(after) == if status == Joined then JoinedIds(rows) + {i} else JoinedIds(rows) - {i};
  }

  // After a join the user is joined; the count rises by one unless the row was joined before, and
  // reaches at most the limit.
  lemma JoinCounts(c: Call, ref: Reference, user: UserId, tenant: nat, pick: nat)
    requires Possible(c, Join(ref, user, tenant, pick)) && JoinResult(c, ref, user, tenant, pick).Ok?
    ensures var r := Step(c, Join(ref, user, tenant, pick));
      var again := HasRow(c.rows, user) && c.rows[pick].status == Joined;
      && r.active && (exists i | 0 <= i < |r.rows| :: r.rows[i].userId == user && r.rows[i].status == Joined)
      && CountJoined(r.rows) == CountJoined(c.rows) + (if again then 0 else 1)
      && (!again ==> CountJoined(r.rows) <= c.max)
  {
    var r := Step(c, Join(ref, user, tenant, pick));
    if HasRow(c.rows, user) {
      StatusCount(c.rows, pick, Joined);
      assert r.rows[pick].userId == user && r.rows[pick].status == Joined;
    } else {
      var n := |c.rows|;
      assert r.rows[..n] == c.rows;
      assert r.rows[n].userId == user && r.rows[n].status == Joined;
    }
  }

  lemma {:induction false} LeftCount(c: Call, pick: nat, heir: nat)
    requires pick < |c.rows| && (Remaining(c, pick) ==> IsHeir(c, pick, heir))
    ensures var rows := LeaveCall(c, pick, heir).rows;
      && CountJoined(rows) == CountJoined(c.rows) - (if c.rows[pick].status == Joined then 1 else 0)
      && (CountJoined(rows) > 0 <==> Remaining(c, pick))
  {
    var left := WithStatus(c.rows, pick, Left);
    StatusCount(c.rows, pick, Left);
    assert JoinedIds(LeaveCall(c, pick, heir).rows) == JoinedIds(left);
    if AnyJoined(left) {
      var k :| 0 <= k < |left| && left[k].status == Joined;
      assert k in JoinedIds(left);
    } else {
      assert JoinedIds(left) == {};
    }
  }

  // After a leave the row has left and no other row changed its status; the call goes on exactly if
  // somebody is still joined, and a leaving host hands over to a joined row.
  lemma LeaveCounts(c: Call, ref: Reference, user: UserId, tenant: nat, pick: nat, heir: nat)
    requires Possible(c, Leave(ref, user, tenant, pick, heir)) && LeaveResult(c, ref, user, tenant).Ok?
    ensures var r := Step(c, Leave(ref, user, tenant, pick, heir));
      && |r.rows| == |c.rows| && r.rows[pick].status == Left && r.rows[pick].userId == user
      && (forall i | 0 <= i < |c.rows| && i != pick :: r.rows[i].status == c.rows[i].status && r.rows[i].userId == c.rows[i].userId)
      && CountJoined(r.rows) == CountJoined(c.rows) - (if c.rows[pick].status == Joined then 1 else 0)
      && r.active == (c.active && CountJoined(r.rows) > 0)
      && (CountJoined(r.rows) > 0 && c.rows[pick].role == Host ==> JoinedHost(r.rows, heir))
      && (forall i | 0 <= i < |c.rows| && c.rows[i].role != r.rows[i].role :: i == heir && c.rows[pick].role == Host)
  {
    LeftCount(c, pick, heir);
  }

  // ---------- the atomic join is the interleaved join without interleaving ----------

  function InRoom(c: Call): Capacity.Room { Capacity.Room(c.max, c.creator, c.rows, map[]) }

  // Nor does the creation without interruption differ from its two steps.
  lemma CreationIsTwoSteps(tenant: nat, creator: UserId, requested: int, most: int, id: nat)
    ensures Capacity.Step(Capacity.Created(creator, requested, most, id), Capacity.WriteRow(id))
         == InRoom(Create(tenant, creator, requested, most))
  {
    assert map[id := Capacity.Passed(creator, None)] - {id} == map[];
  }

  lemma JoinIsThreeSteps(c: Call, ref: Reference, user: UserId, tenant: nat, pick: nat, id: nat)
    requires c.active && !ref.Unknown? && tenant == c.tenant && Possible(c, Join(ref, user, tenant, pick))
    ensures var s1 := Capacity.Step(InRoom(c), Capacity.Count(id, user));
      var s2 := Capacity.Step(s1, Capacity.ReadRow(id, pick));
      var s3 := Capacity.Step(s2, Capacity.WriteRow(id));
      s3 == InRoom(Step(c, Join(ref, user, tenant, pick)))
  {
    var s1 := Capacity.Step(InRoom(c), Capacity.Count(id, user));
    assert s1.joins - {id} == map[];
  }
}
