/**
 The group-call handlers as methods that update the call and its rows, proved against the
 functions of GroupCallRoom. `row` and `heir` report which rows the database happened to return.
 */
module GroupCallObject {
  import opened GroupCallRows
  import opened GroupCallRoom
  import Capacity = GroupCallCapacity

  class GroupCall {
    const tenant: nat
    const creator: UserId
    const max: int
    var active: bool
    var rows: seq<Row>

    function State(): Call
      reads this
    {
      Call(tenant, creator, max, active, rows)
    }

    // The first insert of `create`.
    constructor (tenant: nat, creator: UserId, requested: int, most: int)
      ensures State() == Opened(tenant, creator, requested, most)
    {
      this.tenant, this.creator, max := tenant, creator, Capacity.Limit(requested, most);
      active, rows := true, [];
    }

    // Its second one, after an `await` in which others may have come and gone.
    method EnterCreatorRow()
      modifies this
      ensures State() == Step(old(State()), EnterCreator)
      ensures Hosted(State()) <==> old(active)
    {
      EntryHosts(State());
      rows := rows + [Row(creator, Host, Joined)];
    }

    // `SELECT ... WHERE user_id = $2`, then `rows[0]`: any row of the user, if there is one.
    method SelectRow(user: UserId) returns (found: bool, row: nat)
      ensures found <==> HasRow(rows, user)
      ensures found ==> Owns(rows, user, row)
    {
      found, row := HasRow(rows, user), 0;
      if found {
        row :| row < |rows| && rows[row].userId == user;
      }
    }

    // `SELECT ... WHERE status = 'joined'`, then `rows[0]`.
    method SelectJoined() returns (found: bool, row: nat)
      ensures found <==> AnyJoined(rows)
      ensures found ==> row < |rows| && rows[row].status == Joined
    {
      found, row := AnyJoined(rows), 0;
      if found {
        row :| row < |rows| && rows[row].status == Joined;
      }
    }

    method JoinCall(ref: Reference, user: UserId, userTenant: nat) returns (result: Result, row: nat)
      modifies this
      ensures Possible(old(State()), Join(ref, user, userTenant, row))
      ensures State() == Step(old(State()), Join(ref, user, userTenant, row))
      ensures result == JoinResult(old(State()), ref, user, userTenant, row)
      ensures old(Hosted(State())) ==> Hosted(State())
    {
      var found: bool;
      found, row := SelectRow(user);
      if old(Hosted(State())) { StepKeepsHost(State(), Join(ref, user, userTenant, row)); }
      if ref.Unknown? || userTenant != tenant {
        return CallNotFound, row;
      }
      if !active {
        return CallNotActive, row;
      }
      var activeCount := CountJoined(rows);
      var isAlreadyJoined := found && rows[row].status == Joined;
      if !isAlreadyJoined && activeCount >= max {
        return RoomFull, row;
      }
      if found {
        rows := rows[row := rows[row].(status := Joined)];
      } else {
        rows := rows + [Row(user, if creator == user then Host else Participant, Joined)];
      }
      result := Ok;
    }

    method LeaveTheCall(ref: Reference, user: UserId, userTenant: nat) returns (result: Result, row: nat, heir: nat)
      modifies this
      ensures Possible(old(State()), Leave(ref, user, userTenant, row, heir))
      ensures State() == Step(old(State()), Leave(ref, user, userTenant, row, heir))
      ensures result == LeaveResult(old(State()), ref, user, userTenant)
      ensures old(Hosted(State())) ==> Hosted(State())
    {
      row, heir := 0, 0;
      if ref.Unknown? {
        return CallNotFound, row, heir;
      }
      if userTenant != tenant {
        return TenantMismatch, row, heir;
      }
      var found: bool;
      found, row := SelectRow(user);
      if !found {
        return NotAParticipant, row, heir;
      }
      ghost var before := State();
      var participant := rows[row];
      rows := rows[row := participant.(status := Left)];
      var remaining: bool;
      remaining, heir := SelectJoined();
      assert remaining ==> IsHeir(before, row, heir);
      if old(Hosted(State())) { LeaveKeepsHost(before, row, heir); }
      if !remaining {
        active := false;
      } else if participant.role == Host {
        rows := rows[heir := rows[heir].(role := Host)];
      }
      result := Ok;
    }

    method EndTheCall(ref: Reference, user: UserId, userTenant: nat) returns (result: Result, row: nat)
      modifies this
      ensures Possible(old(State()), End(ref, user, userTenant, row))
      ensures State() == Step(old(State()), End(ref, user, userTenant, row))
      ensures result == EndHandler(old(State()), ref, user, userTenant, row).1
      ensures result.Ok? ==> !active && !AnyJoined(rows)
      ensures !result.Ok? ==> State() == old(State())
      ensures old(Hosted(State())) ==> Hosted(State())
    {
      var found: bool;
      found, row := SelectRow(user);
      if old(Hosted(State())) { StepKeepsHost(State(), End(ref, user, userTenant, row)); }
      if ref.Unknown? {
        return CallNotFound, row;
      }
      if userTenant != tenant {
        return TenantMismatch, row;
      }
      var isHost := (found && rows[row].role == Host) || creator == user;
      if !isHost {
        return HostOnly, row;
      }
      // The updates and the event are keyed by the id of the request.
      if ref.ByCallId? {
        active := false;
      }
      if ref.ByCallId? {
        rows := AllLeft(rows);
      }
      if !EventStored(ref) {
        return ServerError, row;
      }
      result := Ok;
    }

    method InviteUsers(ref: Reference, caller: UserId, userTenant: nat, users: seq<UserId>, sameTenant: set<UserId>)
      returns (result: Result)
      modifies this
      ensures State() == Step(old(State()), Invite(ref, caller, userTenant, users, sameTenant))
      ensures result == InviteResult(old(State()), ref, caller, userTenant, users)
      ensures old(Hosted(State())) ==> Hosted(State())
    {
      if old(Hosted(State())) { StepKeepsHost(State(), Invite(ref, caller, userTenant, users, sameTenant)); }
      result := InviteResult(State(), ref, caller, userTenant, users);
      if !result.Ok? {
        return;
      }
      ghost var before := rows;
      var i := 0;
      while i < |users|
        invariant i <= |users|
        invariant rows == before + InvitedRows(users[..i], sameTenant)
        invariant active == old(active)
      {
        assert users[..i + 1][..i] == users[..i];
        if users[i] in sameTenant {
          rows := rows + [Row(users[i], Participant, Invited)];
        }
        i := i + 1;
      }
      assert users[..i] == users;
    }
  }
}
