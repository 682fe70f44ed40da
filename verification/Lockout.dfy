/**
 The progressive account lockout of server/security.ts. Times are `Date.now()` values.
 */
module Lockout {
  import opened Wrappers

  const MAX_LOGIN_ATTEMPTS := 5
  const LOCKOUT_DURATION_MS := 5 * 60 * 1000
  const MAX_MULTIPLIER := 6

  datatype Record = Record(failedAttempts: nat, lockedUntil: nat, lockoutCount: nat)

  datatype LockStatus = LockStatus(isLocked: bool, remainingSeconds: nat)

  datatype FailStatus = FailStatus(isLocked: bool, remainingAttempts: nat, remainingSeconds: nat)

  const NewRecord := Record(0, 0, 0)

  function Min(a: nat, b: nat): nat { if a < b then a else b }

  // `Math.max(1, Math.ceil(ms / 1000))`
  function SecondsLeft(ms: nat): nat {
    var s := (ms + 999) / 1000;
    if s < 1 then 1 else s
  }

  function Duration(lockout: nat): nat { LOCKOUT_DURATION_MS * Min(lockout, MAX_MULTIPLIER) }

  // ---------- one account ----------

  function Checked(rec: Option<Record>, now: nat): Option<Record> {
    if rec.Some? && 0 < rec.value.lockedUntil <= now then Some(rec.value.(lockedUntil := 0, failedAttempts := 0)) else rec
  }

  function CheckStatus(rec: Option<Record>, now: nat): LockStatus {
    if rec.Some? && rec.value.lockedUntil > now then LockStatus(true, SecondsLeft(rec.value.lockedUntil - now))
    else LockStatus(false, 0)
  }

  function Base(rec: Option<Record>): Record { if rec.Some? then rec.value else NewRecord }

  // A failure is counted unless the account is locked at the time.
  predicate Counts(rec: Option<Record>, now: nat) { Base(rec).lockedUntil <= now }

  function Failed(rec: Option<Record>, now: nat): Option<Record> {
    var r := Base(rec);
    if !Counts(rec, now) then rec
    else if r.failedAttempts + 1 >= MAX_LOGIN_ATTEMPTS then
      Some(Record(r.failedAttempts + 1, now + Duration(r.lockoutCount + 1), r.lockoutCount + 1))
    else Some(r.(failedAttempts := r.failedAttempts + 1))
  }

  function FailStatusOf(rec: Option<Record>, now: nat): FailStatus {
    var r := Base(rec);
    if !Counts(rec, now) then FailStatus(true, 0, SecondsLeft(r.lockedUntil - now))
    else if r.failedAttempts + 1 >= MAX_LOGIN_ATTEMPTS then FailStatus(true, 0, (Duration(r.lockoutCount + 1) + 999) / 1000)
    else FailStatus(false, MAX_LOGIN_ATTEMPTS - (r.failedAttempts + 1), 0)
  }

  datatype Op = Check(at: nat) | Fail(at: nat) | Clear(at: nat)

  function Apply(rec: Option<Record>, op: Op): Option<Record> {
    match op
    case Check(at) => Checked(rec, at)
    case Fail(at) => Failed(rec, at)
    case Clear(_) => None
  }

  // The record after a run, and the times of the failures it counted.
  datatype Progress = Progress(rec: Option<Record>, counted: seq<nat>)

  function Run(ops: seq<Op>): Progress {
    if ops == [] then Progress(None, [])
    else
      var before := Run(ops[..|ops| - 1]);
      var op := ops[|ops| - 1];
      Progress(Apply(before.rec, op),
               if op.Fail? && Counts(before.rec, op.at) then Add(before.counted, op.at) else before.counted)
  }

  ghost predicate InOrder(ops: seq<Op>) {
    forall i, j | 0 <= i < j < |ops| :: ops[i].at <= ops[j].at
  }

  // ---------- the bound ----------

  // The time the first `k` lockouts last together.
  function LockedFor(k: nat): nat {
    if k == 0 then 0 else LockedFor(k - 1) + Duration(k)
  }

  lemma {:induction false} LockedForMonotone(a: nat, b: nat)
    requires a <= b
    ensures LockedFor(a) <= LockedFor(b)
    decreases b
  {
    if a < b {
      LockedForMonotone(a, b - 1);
    }
  }

  ghost predicate Paced(counted: seq<nat>) {
    forall k | 0 <= k < |counted| :: counted[0] + LockedFor(k / 5) <= counted[k]
  }

  ghost predicate Inv(p: Progress, now: nat) {
    && (p.rec.None? <==> p.counted == [])
    && Paced(p.counted)
    && (p.rec.Some? ==>
          var r, n := p.rec.value, |p.counted|;
          if r.lockedUntil == 0 then
            && r.failedAttempts < 5 && n <= 5 * r.lockoutCount + r.failedAttempts
            && p.counted[0] + LockedFor(r.lockoutCount) <= now
          else
            && r.failedAttempts >= 5 && n <= 5 * r.lockoutCount
            && p.counted[0] + LockedFor(r.lockoutCount) <= r.lockedUntil)
  }

  lemma CountedKeeps(p: Progress, now: nat, at: nat)
    requires Inv(p, now) && now <= at && Counts(p.rec, at)
    ensures Inv(Progress(Failed(p.rec, at), Add(p.counted, at)), at)
  {
    var n := |p.counted|;
    var counted := Add(p.counted, at);
    if p.rec.Some? {
      var r := p.rec.value;
      assert n / 5 <= r.lockoutCount;
      LockedForMonotone(n / 5, r.lockoutCount);
      assert counted[0] + LockedFor(r.lockoutCount) <= at;
      forall k | 0 <= k < |counted| ensures counted[0] + LockedFor(k / 5) <= counted[k] {
        if k < n { assert counted[k] == p.counted[k]; }
      }
    }
  }

  lemma {:induction false} RunKeeps(ops: seq<Op>)
    requires InOrder(ops) && forall i | 0 <= i < |ops| :: !ops[i].Clear?
    ensures Inv(Run(ops), if ops == [] then 0 else ops[|ops| - 1].at)
  {
    if ops != [] {
      var last := |ops| - 1;
      RunKeeps(ops[..last]);
      var before := Run(ops[..last]);
      var now := if last == 0 then 0 else ops[last - 1].at;
      match ops[last]
      case Fail(at) =>
        if Counts(before.rec, at) { CountedKeeps(before, now, at); }
      case Check(at) =>
      case Clear(at) =>
    }
  }

  // One five minutes, two, and so on up to six, and six each time after that.
  function FiveMinutes(k: nat): nat { if k <= 6 then k * (k + 1) / 2 else 21 + 6 * (k - 6) }

  lemma {:induction false} LockedForSum(k: nat)
    ensures LockedFor(k) == 300000 * FiveMinutes(k)
  {
    if k > 0 {
      LockedForSum(k - 1);
      if k <= 6 {
        assert k == 1 || k == 2 || k == 3 || k == 4 || k == 5 || k == 6;
      }
    }
  }

  // What a failure does. Under a lock nothing; otherwise it counts one more, and the fifth or a later
  // one locks for five minutes the first time, five more each time, and never more than thirty. The
  // caller is told the time of a new lock, or how many failures are left.
  lemma {:induction false} FailureLocks(rec: Option<Record>, now: nat)
    ensures var after, report := Failed(rec, now), FailStatusOf(rec, now);
      var tried, locks := if rec.Some? then rec.value.failedAttempts + 1 else 1, if rec.Some? then rec.value.lockoutCount + 1 else 1;
      var fives := if locks < 6 then locks else 6;
      if rec.Some? && rec.value.lockedUntil > now then
        after == rec && report.isLocked && report.remainingAttempts == 0
      else if tried >= 5 then
        after == Some(Record(tried, now + 300000 * fives, locks)) && report == FailStatus(true, 0, 300 * fives)
      else
        && after.Some? && after.value.failedAttempts == tried && after.value.lockoutCount == locks - 1
        && after.value.lockedUntil == (if rec.Some? then rec.value.lockedUntil else 0)
        && report == FailStatus(false, 5 - tried, 0)
  {
  }

  // What a check does: it lifts a lock that has run out, and with it the count, but not the number of
  // lockouts; otherwise it changes nothing.
  lemma {:induction false} CheckLifts(rec: Option<Record>, now: nat)
    ensures CheckStatus(rec, now).isLocked <==> rec.Some? && rec.value.lockedUntil > now
    ensures !CheckStatus(rec, now).isLocked ==> CheckStatus(rec, now).remainingSeconds == 0
    ensures Checked(rec, now) == if rec.Some? && rec.value.lockedUntil > 0 && !CheckStatus(rec, now).isLocked
      then Some(Record(0, 0, rec.value.lockoutCount)) else rec
  {
  }

  // Whatever the interleaving of checks and failures: while nobody succeeds and nobody unlocks the
  // account, the n-th counted failure comes no earlier after the first than all lockouts that the
  // n - 1 failures before it must have caused: 5, 10, 15, 20, 25 and then 30 minutes each.
  lemma BruteForceBound(ops: seq<Op>, n: nat)
    requires InOrder(ops) && forall i | 0 <= i < |ops| :: !ops[i].Clear?
    requires 1 <= n <= |Run(ops).counted|
    ensures Run(ops).counted[0] + 300000 * FiveMinutes((n - 1) / 5) <= Run(ops).counted[n - 1]
  {
    RunKeeps(ops);
    LockedForSum((n - 1) / 5);
  }

  // ---------- the bound is exact ----------

  // Check and fail as early as the lockouts allow.
  function Attack(start: nat, n: nat): seq<Op> {
    if n == 0 then []
    else
      var at := start + LockedFor((n - 1) / 5);
      Add(Add(Attack(start, n - 1), Check(at)), Fail(at))
  }

  function AttackRecord(start: nat, n: nat): Option<Record> {
    if n == 0 then None
    else if n % 5 == 0 then Some(Record(5, start + LockedFor(n / 5), n / 5))
    else Some(Record(n % 5, 0, n / 5))
  }

  lemma RunOne(ops: seq<Op>, more: seq<Op>, op: Op)
    requires more == Add(ops, op)
    ensures Run(more).rec == Apply(Run(ops).rec, op)
    ensures Run(more).counted == if op.Fail? && Counts(Run(ops).rec, op.at) then Add(Run(ops).counted, op.at) else Run(ops).counted
  {
    AddPrefix(ops, op);
  }

  // A check and a failure right after it.
  lemma RunTwo(ops: seq<Op>, more: seq<Op>, at: nat)
    requires more == Add(Add(ops, Check(at)), Fail(at))
    ensures Run(more).rec == Failed(Checked(Run(ops).rec, at), at)
    ensures Counts(Checked(Run(ops).rec, at), at) ==> Run(more).counted == Add(Run(ops).counted, at)
  {
    RunOne(ops, Add(ops, Check(at)), Check(at));
    RunOne(Add(ops, Check(at)), more, Fail(at));
  }

  lemma {:induction false} AttackInOrder(start: nat, n: nat)
    ensures var ops := Attack(start, n);
      && InOrder(ops)
      && forall i | 0 <= i < |ops| :: !ops[i].Clear? && n > 0 && ops[i].at <= start + LockedFor((n - 1) / 5)
  {
    if n > 0 {
      var m := n - 1;
      AttackInOrder(start, m);
      if m > 0 { LockedForMonotone((m - 1) / 5, m / 5); }
    }
  }

  // The counted failures of the attack come in blocks of five.
  ghost predicate Timed(counted: seq<nat>, start: nat, n: nat) {
    |counted| == n && forall k | 0 <= k < n :: counted[k] == start + LockedFor(k / 5)
  }

  lemma TimedMore(counted: seq<nat>, start: nat, m: nat)
    requires Timed(counted, start, m)
    ensures Timed(Add(counted, start + LockedFor(m / 5)), start, m + 1)
  {
  }

  ghost predicate Attacked(p: Progress, start: nat, n: nat) {
    p.rec == AttackRecord(start, n) && Timed(p.counted, start, n)
  }

  lemma AttackOnce(ops: seq<Op>, more: seq<Op>, start: nat, m: nat)
    requires start > 0 && Attacked(Run(ops), start, m)
    requires var at := start + LockedFor(m / 5); more == Add(Add(ops, Check(at)), Fail(at))
    ensures Attacked(Run(more), start, m + 1)
  {
    AttackStep(start, m);
    RunTwo(ops, more, start + LockedFor(m / 5));
    TimedMore(Run(ops).counted, start, m);
  }

  lemma {:induction false} AttackSucceeds(start: nat, n: nat)
    requires start > 0
    ensures Attacked(Run(Attack(start, n)), start, n)
  {
    if n > 0 {
      AttackSucceeds(start, n - 1);
      AttackOnce(Attack(start, n - 1), Attack(start, n), start, n - 1);
    }
  }

  lemma AttackStep(start: nat, m: nat)
    requires start > 0
    ensures var at := start + LockedFor(m / 5);
      && Counts(Checked(AttackRecord(start, m), at), at)
      && Failed(Checked(AttackRecord(start, m), at), at) == AttackRecord(start, m + 1)
  {
    assert m % 5 == 4 ==> (m + 1) / 5 == m / 5 + 1 && (m + 1) % 5 == 0;
    assert m % 5 != 4 ==> (m + 1) / 5 == m / 5 && (m + 1) % 5 == m % 5 + 1;
  }

  // No better bound holds: for every n there is such a run whose n-th counted failure comes at
  // exactly that time.
  lemma BruteForceBoundIsExact(start: nat, n: nat)
    requires start > 0 && n >= 1
    ensures var ops := Attack(start, n);
      && InOrder(ops) && (forall i | 0 <= i < |ops| :: !ops[i].Clear?)
      && |Run(ops).counted| == n
      && Run(ops).counted[n - 1] == Run(ops).counted[0] + 300000 * FiveMinutes((n - 1) / 5)
  {
    LockedForSum((n - 1) / 5);
    AttackSucceeds(start, n);
    AttackInOrder(start, n);
  }

  // ---------- waiting ----------

  // The seconds a locked-out caller is told are the fewest whole seconds that outlast the lock.
  lemma ReportedSecondsAreLeast(rec: Option<Record>, now: nat)
    requires CheckStatus(rec, now).isLocked
    ensures var r, s := rec.value, CheckStatus(rec, now).remainingSeconds;
      s >= 1 && now + 1000 * (s - 1) < r.lockedUntil <= now + 1000 * s
  {
  }

  function ApplyAll(rec: Option<Record>, ops: seq<Op>): Option<Record> {
    if ops == [] then rec else Apply(ApplyAll(rec, ops[..|ops| - 1]), ops[|ops| - 1])
  }

  // The operations that come when the lock has run out.
  function Late(ops: seq<Op>, until: nat): seq<Op> {
    if ops == [] then []
    else
      var op, late := ops[|ops| - 1], Late(ops[..|ops| - 1], until);
      if op.at < until then late else Add(late, op)
  }

  function Fails(ops: seq<Op>): nat {
    if ops == [] then 0 else Fails(ops[..|ops| - 1]) + (if ops[|ops| - 1].Fail? then 1 else 0)
  }

  // A failure before any check, or five of them.
  predicate Relocks(ops: seq<Op>, until: nat) {
    var late := Late(ops, until);
    late != [] && (late[0].Fail? || Fails(late) >= 5)
  }

  // What the record is after the lock of `rec` and the operations so far, up to `later`.
  ghost predicate Follows(rec: Record, ops: seq<Op>, later: nat, now: Option<Record>) {
    var late := Late(ops, rec.lockedUntil);
    if late == [] then now == Some(rec)
    else if Relocks(ops, rec.lockedUntil) then now.Some? && now.value.lockedUntil > later
    else now.Some? && now.value.lockedUntil == 0 && now.value.failedAttempts == Fails(late) && Fails(late) < 5
  }

  lemma LateMore(ops: seq<Op>, op: Op, until: nat)
    requires op.at >= until
    ensures Late(Add(ops, op), until) == Add(Late(ops, until), op)
    ensures Fails(Add(Late(ops, until), op)) == Fails(Late(ops, until)) + (if op.Fail? then 1 else 0)
  {
    AddPrefix(ops, op);
    AddPrefix(Late(ops, until), op);
  }

  lemma LateSame(ops: seq<Op>, op: Op, until: nat)
    requires op.at < until
    ensures Late(Add(ops, op), until) == Late(ops, until)
  {
    AddPrefix(ops, op);
  }

  lemma LongestWait(rec: Record, at: nat)
    ensures Duration(rec.lockoutCount + 1) >= LOCKOUT_DURATION_MS
  {
  }

  lemma FollowsMore(rec: Record, ops: seq<Op>, op: Op, later: nat, before: Option<Record>)
    requires rec.failedAttempts >= 5 && rec.lockedUntil > 0 && later < rec.lockedUntil + LOCKOUT_DURATION_MS
    requires !op.Clear? && op.at <= later && Follows(rec, ops, later, before)
    requires Late(ops, rec.lockedUntil) != [] ==> rec.lockedUntil <= op.at
    ensures Follows(rec, Add(ops, op), later, Apply(before, op))
  {
    if op.at < rec.lockedUntil {
      LateSame(ops, op, rec.lockedUntil);
    } else {
      LateMore(ops, op, rec.lockedUntil);
      LongestWait(before.value, op.at);
    }
  }

  lemma {:induction false} LateIsLate(ops: seq<Op>, until: nat)
    requires InOrder(ops) && Late(ops, until) != []
    ensures ops != [] && ops[|ops| - 1].at >= until
  {
    var most, op := ops[..|ops| - 1], ops[|ops| - 1];
    if op.at < until {
      LateIsLate(most, until);
    }
  }

  lemma {:induction false} AllFollow(rec: Record, ops: seq<Op>, later: nat)
    requires rec.failedAttempts >= 5 && rec.lockedUntil > 0 && later < rec.lockedUntil + LOCKOUT_DURATION_MS
    requires InOrder(ops) && forall i | 0 <= i < |ops| :: !ops[i].Clear? && ops[i].at <= later
    ensures Follows(rec, ops, later, ApplyAll(Some(rec), ops))
  {
    if ops != [] {
      var most, op := ops[..|ops| - 1], ops[|ops| - 1];
      AllFollow(rec, most, later);
      if Late(most, rec.lockedUntil) != [] {
        LateIsLate(most, rec.lockedUntil);
        assert ops[|most| - 1].at <= op.at;
      }
      FollowsMore(rec, most, op, later, ApplyAll(Some(rec), most));
      AddBack(ops);
    }
  }

  lemma {:induction false} LockedAtFive(ops: seq<Op>)
    ensures var rec := Run(ops).rec;
      rec.Some? ==> if rec.value.lockedUntil == 0 then rec.value.failedAttempts < 5 else rec.value.failedAttempts >= 5
  {
    if ops != [] { LockedAtFive(ops[..|ops| - 1]); }
  }

  lemma OpenIff(rec: Record, ops: seq<Op>, later: nat)
    requires rec.failedAttempts >= 5 && 0 < rec.lockedUntil <= later < rec.lockedUntil + LOCKOUT_DURATION_MS
    requires InOrder(ops) && forall i | 0 <= i < |ops| :: !ops[i].Clear? && ops[i].at <= later
    ensures CheckStatus(ApplyAll(Some(rec), ops), later).isLocked <==> Relocks(ops, rec.lockedUntil)
  {
    AllFollow(rec, ops, later);
  }

  lemma WaitOver(rec: Option<Record>, now: nat, ops: seq<Op>)
    requires CheckStatus(rec, now).isLocked && rec.value.failedAttempts >= 5
    requires InOrder(ops)
    requires forall i | 0 <= i < |ops| :: !ops[i].Clear? && ops[i].at <= now + 1000 * CheckStatus(rec, now).remainingSeconds
    ensures CheckStatus(ApplyAll(rec, ops), now + 1000 * CheckStatus(rec, now).remainingSeconds).isLocked
      <==> Relocks(ops, rec.value.lockedUntil)
  {
    ReportedSecondsAreLeast(rec, now);
    OpenIff(rec.value, ops, now + 1000 * CheckStatus(rec, now).remainingSeconds);
  }

  // A record that some run leads to.
  ghost predicate Reached(rec: Option<Record>) { exists ops :: Run(ops).rec == rec }

  lemma LockReached(rec: Option<Record>)
    requires Reached(rec) && rec.Some? && rec.value.lockedUntil > 0
    ensures rec.value.failedAttempts >= 5
  {
    var ops :| Run(ops).rec == rec;
    LockedAtFive(ops);
  }

  // Whatever led to the lock and whatever is tried up to the end of the reported wait: the account
  // is open then, unless in the last instants, after the lock has run out, a failure was recorded
  // without a check before it, or a fifth one.
  lemma WaitingUnlocksIff(rec: Option<Record>, now: nat, ops: seq<Op>)
    requires Reached(rec) && CheckStatus(rec, now).isLocked && InOrder(ops)
    requires forall i | 0 <= i < |ops| :: !ops[i].Clear? && ops[i].at <= now + 1000 * CheckStatus(rec, now).remainingSeconds
    ensures CheckStatus(ApplyAll(rec, ops), now + 1000 * CheckStatus(rec, now).remainingSeconds).isLocked
      <==> Relocks(ops, rec.value.lockedUntil)
  {
    LockReached(rec);
    WaitOver(rec, now, ops);
  }

  // In particular, nothing tried while the lock stands extends it.
  lemma WaitingUnlocks(rec: Option<Record>, now: nat, ops: seq<Op>)
    requires Reached(rec) && CheckStatus(rec, now).isLocked
    requires InOrder(ops) && forall i | 0 <= i < |ops| :: !ops[i].Clear? && ops[i].at < rec.value.lockedUntil
    ensures !CheckStatus(ApplyAll(rec, ops), now + 1000 * CheckStatus(rec, now).remainingSeconds).isLocked
  {
    ReportedSecondsAreLeast(rec, now);
    NoneLate(ops, rec.value.lockedUntil);
    WaitingUnlocksIff(rec, now, ops);
  }

  lemma {:induction false} NoneLate(ops: seq<Op>, until: nat)
    requires forall i | 0 <= i < |ops| :: ops[i].at < until
    ensures Late(ops, until) == []
  {
    if ops != [] { NoneLate(ops[..|ops| - 1], until); }
  }

  // A wait that does not unlock: one failure, checked before the lock, is recorded in its last second.
  lemma WaitingCanRelock()
    ensures var rec := Some(Record(5, 300001, 1));
      && Reached(rec) && CheckStatus(rec, 1) == LockStatus(true, 300)
      && CheckStatus(ApplyAll(rec, [Fail(300001)]), 300001).isLocked
  {
    FirstLock();
    assert [Fail(300001)][..0] == [];
    assert ApplyAll(Some(Record(5, 300001, 1)), []) == Some(Record(5, 300001, 1));
  }

  lemma FirstLock()
    ensures Reached(Some(Record(5, 300001, 1)))
  {
    AttackSucceeds(1, 5);
    assert LockedFor(1) == 300000;
    assert AttackRecord(1, 5) == Some(Record(5, 300001, 1));
  }

  lemma FailureReportAgrees(rec: Option<Record>, now: nat)
    ensures FailStatusOf(rec, now).isLocked <==> CheckStatus(Failed(rec, now), now).isLocked
    ensures FailStatusOf(rec, now).remainingSeconds == CheckStatus(Failed(rec, now), now).remainingSeconds
  {
  }

  // `n` more failures at one instant.
  function FailedAgain(rec: Option<Record>, at: nat, n: nat): Option<Record> {
    if n == 0 then rec else Failed(FailedAgain(rec, at, n - 1), at)
  }

  // A caller whose failure does not lock is told exactly how many more failures it takes.
  lemma {:induction false} RemainingAttemptsAreExact(rec: Option<Record>, now: nat, at: nat, n: nat)
    requires !FailStatusOf(rec, now).isLocked && now <= at && 1 <= n <= FailStatusOf(rec, now).remainingAttempts
    ensures var after := FailedAgain(Failed(rec, now), at, n);
      && (CheckStatus(after, at).isLocked <==> n == FailStatusOf(rec, now).remainingAttempts)
      && after.Some? && after.value.failedAttempts == Failed(rec, now).value.failedAttempts + n
      && (n < FailStatusOf(rec, now).remainingAttempts ==> after.value.lockedUntil == Failed(rec, now).value.lockedUntil)
  {
    if n > 1 {
      RemainingAttemptsAreExact(rec, now, at, n - 1);
    } else {
      assert FailedAgain(Failed(rec, now), at, 0) == Failed(rec, now);
    }
  }

  // ---------- check-then-record ----------

  // A failed login that runs without interruption: the failure is recorded only if the check passes.
  function FailedLogin(rec: Option<Record>, now: nat): Option<Record> {
    if CheckStatus(rec, now).isLocked then Checked(rec, now) else Failed(Checked(rec, now), now)
  }

  function FailedLogins(times: seq<nat>): Option<Record> {
    if times == [] then None else FailedLogin(FailedLogins(times[..|times| - 1]), times[|times| - 1])
  }

  lemma {:induction false} LoginsCountToFive(times: seq<nat>)
    requires forall i, j | 0 <= i < j < |times| :: times[i] <= times[j]
    ensures var rec := FailedLogins(times);
      rec.Some? ==> rec.value.failedAttempts <= 5 && (rec.value.lockedUntil == 0 ==> rec.value.failedAttempts < 5)
  {
    if times != [] {
      LoginsCountToFive(times[..|times| - 1]);
    }
  }

  // A failed login that finds no lock counts one more, or starts again at one if a lock ran out; the
  // fifth locks.
  lemma {:induction false} FailedLoginExactly(rec: Option<Record>, now: nat)
    ensures var after, was := FailedLogin(rec, now), if rec.Some? then rec.value else Record(0, 0, 0);
      var tried := if was.lockedUntil > 0 then 1 else was.failedAttempts + 1;
      var fives := if was.lockoutCount < 5 then was.lockoutCount + 1 else 6;
      after == if was.lockedUntil > now then rec
               else if tried < 5 then Some(Record(tried, 0, was.lockoutCount))
               else Some(Record(tried, now + 300000 * fives, was.lockoutCount + 1))
  {
  }

  // Of the failed logins within five minutes after the fifth, none counts.
  lemma {:induction false} FifthLoginLocks(times: seq<nat>)
    requires forall i, j | 0 <= i < j < |times| :: times[i] <= times[j]
    requires |times| >= 5 ==> times[|times| - 1] < times[4] + 300000
    ensures FailedLogins(times) ==
      if times == [] then None
      else if |times| < 5 then Some(Record(|times|, 0, 0))
      else Some(Record(5, times[4] + 300000, 1))
  {
    if times != [] {
      FifthLoginLocks(times[..|times| - 1]);
      FailedLoginExactly(FailedLogins(times[..|times| - 1]), times[|times| - 1]);
    }
  }

  // ---------- check and record apart ----------

  // A failure that is recorded after a lock ran out, and no check has noticed that since.
  predicate Stale(rec: Option<Record>, at: nat) { rec.Some? && 0 < rec.value.lockedUntil <= at }

  function Attempts(rec: Option<Record>): nat { if rec.Some? then rec.value.failedAttempts else 0 }

  // What a record looks like as long as the counter has not passed five.
  predicate AtMostFive(rec: Option<Record>) {
    rec.Some? ==> if rec.value.lockedUntil == 0 then rec.value.failedAttempts < 5 else rec.value.failedAttempts == 5
  }

  lemma SixthIff(rec: Option<Record>, op: Op)
    requires AtMostFive(rec)
    ensures Attempts(Apply(rec, op)) <= 5 <==> !(op.Fail? && Stale(rec, op.at))
    ensures Attempts(Apply(rec, op)) <= 5 ==> AtMostFive(Apply(rec, op))
  {
  }

  // Over every run, in any interleaving and with any successes: the counter stays at most five
  // exactly if no stale failure is recorded.
  lemma FiveIff(ops: seq<Op>)
    ensures (forall k | 0 <= k <= |ops| :: Attempts(Run(ops[..k]).rec) <= 5)
      <==> forall k | 0 <= k < |ops| && ops[k].Fail? :: !Stale(Run(ops[..k]).rec, ops[k].at)
  {
    if forall k | 0 <= k < |ops| && ops[k].Fail? :: !Stale(Run(ops[..k]).rec, ops[k].at) {
      forall k | 0 <= k <= |ops| ensures Attempts(Run(ops[..k]).rec) <= 5 { FiveSoFar(ops, k); }
    }
    if forall k | 0 <= k <= |ops| :: Attempts(Run(ops[..k]).rec) <= 5 {
      forall k | 0 <= k < |ops| && ops[k].Fail? ensures !Stale(Run(ops[..k]).rec, ops[k].at) {
        BelowSixSoFar(ops, k);
        RunAt(ops, k + 1);
        SixthIff(Run(ops[..k]).rec, ops[k]);
        assert Attempts(Run(ops[..k + 1]).rec) <= 5;
      }
    }
  }

  lemma RunAt(ops: seq<Op>, n: nat)
    requires 0 < n <= |ops|
    ensures Run(ops[..n]).rec == Apply(Run(ops[..n - 1]).rec, ops[n - 1])
  {
    assert ops[..n][..n - 1] == ops[..n - 1];
  }

  lemma {:induction false} FiveSoFar(ops: seq<Op>, n: nat)
    requires n <= |ops| && forall k | 0 <= k < |ops| && ops[k].Fail? :: !Stale(Run(ops[..k]).rec, ops[k].at)
    ensures AtMostFive(Run(ops[..n]).rec)
    decreases n
  {
    if n > 0 {
      FiveSoFar(ops, n - 1);
      RunAt(ops, n);
      SixthIff(Run(ops[..n - 1]).rec, ops[n - 1]);
    }
  }

  lemma {:induction false} BelowSixSoFar(ops: seq<Op>, n: nat)
    requires n <= |ops| && forall k | 0 <= k <= |ops| :: Attempts(Run(ops[..k]).rec) <= 5
    ensures AtMostFive(Run(ops[..n]).rec)
    decreases n
  {
    if n > 0 {
      BelowSixSoFar(ops, n - 1);
      RunAt(ops, n);
      SixthIff(Run(ops[..n - 1]).rec, ops[n - 1]);
      assert Attempts(Run(ops[..n]).rec) <= 5;
    }
  }

  function Failures(start: nat, n: nat): (ops: seq<Op>)
    ensures |ops| == n && forall k | 0 <= k < n :: ops[k] == Fail(start)
  {
    if n == 0 then [] else Add(Failures(start, n - 1), Fail(start))
  }

  lemma {:induction false} FailuresCount(start: nat, n: nat)
    requires start > 0 && n <= 5
    ensures Run(Failures(start, n)).rec ==
      if n == 0 then None else if n < 5 then Some(Record(n, 0, 0)) else Some(Record(5, start + LOCKOUT_DURATION_MS, 1))
  {
    if n > 0 {
      FailuresCount(start, n - 1);
      RunMore(Failures(start, n - 1), Fail(start));
      FailureLocks(Run(Failures(start, n - 1)).rec, start);
    }
  }

  lemma {:induction false} RunMore(ops: seq<Op>, op: Op)
    ensures Run(Add(ops, op)).rec == Apply(Run(ops).rec, op)
  {
    AddPrefix(ops, op);
  }

  // The counter does pass five: a login that was checked before the lock and fails after it ran out.
  lemma InterleavedLoginsCountSix(start: nat)
    requires start > 0
    ensures var ops := Add(Failures(start, 5), Fail(start + LOCKOUT_DURATION_MS));
      InOrder(ops) && Run(ops).rec.Some? && Run(ops).rec.value.failedAttempts == 6
  {
    FailuresCount(start, 5);
    RunMore(Failures(start, 5), Fail(start + LOCKOUT_DURATION_MS));
  }
}
