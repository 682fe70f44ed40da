/** Rows of server/routes/groupCalls.ts that both models of the group call share. */
module GroupCallRows {
  type UserId = nat

  datatype Role = Host | Participant
  datatype Status = Invited | Joined | Left

  // A row of `group_call_participants`; its position stands for its id. Rows are never deleted,
  // and one user may have several, since an invitation always inserts a new one.
  datatype Row = Row(userId: UserId, role: Role, status: Status)

  predicate Owns(rows: seq<Row>, user: UserId, i: nat) {
    i < |rows| && rows[i].userId == user
  }

  predicate HasRow(rows: seq<Row>, user: UserId) {
    exists i | 0 <= i < |rows| :: rows[i].userId == user
  }

  ghost function JoinedIds(rows: seq<Row>): set<nat> {
    set i: nat | i < |rows| && rows[i].status == Joined
  }

  // `SELECT COUNT(*) ... WHERE status = 'joined'`
  function CountJoined(rows: seq<Row>): (n: nat)
    ensures n == |JoinedIds(rows)|
  {
    if rows == [] then 0
    else
      var last := |rows| - 1;
      assert JoinedIds(rows) == JoinedIds(rows[..last]) + (if rows[last].status == Joined then {last} else {});
      CountJoined(rows[..last]) + (if rows[last].status == Joined then 1 else 0)
  }

  function WithStatus(rows: seq<Row>, i: nat, status: Status): seq<Row>
    requires i < |rows|
  {
    rows[i := rows[i].(status := status)]
  }

  // `UPDATE ... SET status = 'left' WHERE status = 'joined'`
  function AllLeft(rows: seq<Row>): (r: seq<Row>)
    ensures |r| == |rows|
    ensures forall i | 0 <= i < |rows| :: r[i] == if rows[i].status == Joined then rows[i].(status := Left) else rows[i]
  {
    seq(|rows|, i requires 0 <= i < |rows| => if rows[i].status == Joined then rows[i].(status := Left) else rows[i])
  }

  // The webhook's `UPDATE ... SET status = 'left'` over all rows of a user.
  function UserLeft(rows: seq<Row>, user: UserId): (r: seq<Row>)
    ensures |r| == |rows|
    ensures forall i | 0 <= i < |rows| :: r[i] == if rows[i].userId == user then rows[i].(status := Left) else rows[i]
  {
    seq(|rows|, i requires 0 <= i < |rows| => if rows[i].userId == user then rows[i].(status := Left) else rows[i])
  }

  lemma NobodyJoined(rows: seq<Row>)
    requires forall i | 0 <= i < |rows| :: rows[i].status != Joined
    ensures CountJoined(rows) == 0
  {
    assert JoinedIds(rows) == {};
  }

  // After the update that ends a call nobody is joined; nobody's role or user changed, and rows that
  // were not joined are as they were.
  lemma AllLeftEmpties(rows: seq<Row>)
    ensures CountJoined(AllLeft(rows)) == 0
    ensures forall i | 0 <= i < |rows| :: AllLeft(rows)[i].userId == rows[i].userId && AllLeft(rows)[i].role == rows[i].role
    ensures forall i | 0 <= i < |rows| && rows[i].status != Joined :: AllLeft(rows)[i] == rows[i]
  {
    NobodyJoined(AllLeft(rows));
  }

  ghost function JoinedIdsOf(rows: seq<Row>, user: UserId): set<nat> {
    set i: nat | i < |rows| && rows[i].status == Joined && rows[i].userId == user
  }

  // The webhook's update takes exactly the user's own joined rows out of the count.
  lemma UserLeftCounts(rows: seq<Row>, user: UserId)
    ensures CountJoined(UserLeft(rows, user)) == CountJoined(rows) - |JoinedIdsOf(rows, user)|
    ensures JoinedIds(UserLeft(rows, user)) == JoinedIds(rows) - JoinedIdsOf(rows, user)
    ensures JoinedIdsOf(UserLeft(rows, user), user) == {}
  {
    var all, own := JoinedIds(rows), JoinedIdsOf(rows, user);
    assert JoinedIds(UserLeft(rows, user)) == all - own;
    assert own <= all;
    SubsetDifference(all, own);
  }

  lemma SubsetDifference(all: set<nat>, part: set<nat>)
    requires part <= all
    ensures |all - part| == |all| - |part|
  {
    assert all == (all - part) + part;
  }
}
