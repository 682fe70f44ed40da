/**
 The registry of lockout records, one per normalized identifier: the functions of
 server/security.ts that update it in place, and the bounds for every
 identifier, and for every user, of a mixed run.
 */
module LockoutRegistry {
  import opened Wrappers
  import opened Lockout
  import opened Identifiers

  type Registry = map<string, Record>

  function RecordOf(m: Registry, key: string): Option<Record> {
    if key in m then Some(m[key]) else None
  }

  function WithRecord(m: Registry, key: string, rec: Option<Record>): Registry {
    match rec
    case Some(r) => m[key := r]
    case None => m - {key}
  }

  class AccountLockouts {
    const text: Text
    var records: Registry

    constructor (text: Text)
      ensures records == map[] && this.text == text
    {
      this.text, records := text, map[];
    }

    method IsAccountLocked(identifier: string, now: nat) returns (status: LockStatus)
      modifies this
      ensures identifier == "" ==> records == old(records) && status == LockStatus(false, 0)
      ensures identifier != "" ==>
        var key := Normalize(text, identifier);
        && records == WithRecord(old(records), key, Checked(RecordOf(old(records), key), now))
        && status == CheckStatus(RecordOf(old(records), key), now)
    {
      if identifier == "" {
        return LockStatus(false, 0);
      }
      var key := Normalize(text, identifier);
      if key in records && records[key].lockedUntil > now {
        assert records[key := records[key]] == records;
        return LockStatus(true, SecondsLeft(records[key].lockedUntil - now));
      }
      if key in records && records[key].lockedUntil > 0 && records[key].lockedUntil <= now {
        records := records[key := records[key].(lockedUntil := 0, failedAttempts := 0)];
      }
      assert key !in records ==> records - {key} == records;
      assert key in records ==> records[key := records[key]] == records;
      status := LockStatus(false, 0);
    }

    method RecordFailedLogin(identifier: string, now: nat) returns (status: FailStatus)
      modifies this
      ensures identifier == "" ==> records == old(records) && status == FailStatus(false, MAX_LOGIN_ATTEMPTS, 0)
      ensures identifier != "" ==>
        var key := Normalize(text, identifier);
        && records == WithRecord(old(records), key, Failed(RecordOf(old(records), key), now))
        && status == FailStatusOf(RecordOf(old(records), key), now)
    {
      if identifier == "" {
        return FailStatus(false, MAX_LOGIN_ATTEMPTS, 0);
      }
      var key := Normalize(text, identifier);
      var record := if key in records then records[key] else NewRecord;
      if record.lockedUntil > now {
        assert records[key := records[key]] == records;
        return FailStatus(true, 0, SecondsLeft(record.lockedUntil - now));
      }
      record := record.(failedAttempts := record.failedAttempts + 1);
      if record.failedAttempts >= MAX_LOGIN_ATTEMPTS {
        record := record.(lockoutCount := record.lockoutCount + 1);
        var multiplier := Min(record.lockoutCount, MAX_MULTIPLIER);
        var duration := LOCKOUT_DURATION_MS * multiplier;
        record := record.(lockedUntil := now + duration);
        records := records[key := record];
        return FailStatus(true, 0, (duration + 999) / 1000);
      }
      records := records[key := record];
      var left := MAX_LOGIN_ATTEMPTS - record.failedAttempts;
      status := FailStatus(false, if left > 0 then left else 0, 0);
    }

    // `clearFailedLogins`, and `unlockAccount`, which also reports whether there was a record.
    method Unlock(identifier: string) returns (existed: bool)
      modifies this
      ensures identifier == "" ==> records == old(records) && !existed
      ensures identifier != "" ==>
        var key := Normalize(text, identifier);
        records == WithRecord(old(records), key, None) && (existed <==> key in old(records))
    {
      if identifier == "" {
        return false;
      }
      var key := Normalize(text, identifier);
      existed := key in records;
      records := records - {key};
    }
  }

  // ---------- runs over many identifiers ----------

  datatype KeyedOp = On(key: string, op: Op)

  function RunAll(ops: seq<KeyedOp>): Registry {
    if ops == [] then map[]
    else
      var before := RunAll(ops[..|ops| - 1]);
      var o := ops[|ops| - 1];
      WithRecord(before, o.key, Apply(RecordOf(before, o.key), o.op))
  }

  function OpsOf(ops: seq<KeyedOp>, key: string): seq<Op> {
    if ops == [] then []
    else
      var o, before := ops[|ops| - 1], OpsOf(ops[..|ops| - 1], key);
      if o.key == key then Add(before, o.op) else before
  }

  // Each identifier sees its own operations only.
  lemma {:induction false} AccountsAreIndependent(ops: seq<KeyedOp>, key: string)
    ensures RecordOf(RunAll(ops), key) == Run(OpsOf(ops, key)).rec
  {
    if ops != [] {
      var o := ops[|ops| - 1];
      var before := ops[..|ops| - 1];
      AccountsAreIndependent(before, key);
      if o.key == key { AddPrefix(OpsOf(before, key), o.op); }
    }
  }

  lemma {:induction false} OpsOfInOrder(ops: seq<KeyedOp>, key: string)
    requires forall i, j | 0 <= i < j < |ops| :: ops[i].op.at <= ops[j].op.at
    requires forall i | 0 <= i < |ops| && ops[i].key == key :: !ops[i].op.Clear?
    ensures InOrder(OpsOf(ops, key))
    ensures forall i | 0 <= i < |OpsOf(ops, key)| :: !OpsOf(ops, key)[i].Clear?
    ensures ops != [] ==> forall i | 0 <= i < |OpsOf(ops, key)| :: OpsOf(ops, key)[i].at <= ops[|ops| - 1].op.at
  {
    if ops != [] {
      OpsOfInOrder(ops[..|ops| - 1], key);
    }
  }

  ghost predicate InTimeOrder(ops: seq<KeyedOp>) {
    forall i, j | 0 <= i < j < |ops| :: ops[i].op.at <= ops[j].op.at
  }

  ghost predicate NeverCleared(ops: seq<KeyedOp>, key: string) {
    forall i | 0 <= i < |ops| && ops[i].key == key :: !ops[i].op.Clear?
  }

  function CountedOf(ops: seq<KeyedOp>, key: string): seq<nat> { Run(OpsOf(ops, key)).counted }

  // The bound for one identifier inside any run over all of them.
  lemma {:induction false} BruteForceBoundPerIdentifier(ops: seq<KeyedOp>, key: string, n: nat)
    requires InTimeOrder(ops) && NeverCleared(ops, key) && 1 <= n <= |CountedOf(ops, key)|
    ensures RecordOf(RunAll(ops), key) == Run(OpsOf(ops, key)).rec
    ensures CountedOf(ops, key)[0] + 300000 * FiveMinutes((n - 1) / 5) <= CountedOf(ops, key)[n - 1]
  {
    AccountsAreIndependent(ops, key);
    OpsOfInOrder(ops, key);
    BruteForceBound(OpsOf(ops, key), n);
  }

  // ---------- a user with two identifiers ----------

  // A login accepts the email or the user name, and each of them has its own record.
  function CountedFor(ops: seq<KeyedOp>, email: string, userName: string): nat {
    |CountedOf(ops, email)| + |CountedOf(ops, userName)|
  }

  // The counted failures under one identifier are as far apart as (n - 1) / 10 lockouts.
  ghost predicate Spread(ops: seq<KeyedOp>, key: string, n: nat)
    requires n >= 1
  {
    var counted := CountedOf(ops, key);
    counted != [] && counted[0] + 300000 * FiveMinutes((n - 1) / 10) <= counted[|counted| - 1]
  }

  lemma {:induction false} HalfOfThem(n: nat, m: nat)
    requires 1 <= n <= 2 * m
    ensures 0 <= (n - 1) / 10 <= (m - 1) / 5
  {
  }

  lemma {:induction false} SpreadHalf(ops: seq<KeyedOp>, key: string, n: nat)
    requires InTimeOrder(ops) && NeverCleared(ops, key) && 1 <= n <= 2 * |CountedOf(ops, key)|
    ensures Spread(ops, key, n)
  {
    var m := |CountedOf(ops, key)|;
    BruteForceBoundPerIdentifier(ops, key, m);
    HalfOfThem(n, m);
    LockedForMonotone((n - 1) / 10, (m - 1) / 5);
    LockedForSum((n - 1) / 10);
    LockedForSum((m - 1) / 5);
  }

  // The n-th counted failure of a user over both identifiers: at least half of them fall on one, so it
  // comes no earlier after the first than the lockouts of (n - 1) / 10, in any interleaving.
  lemma {:induction false} BruteForceBoundPerUser(ops: seq<KeyedOp>, email: string, userName: string)
    requires InTimeOrder(ops) && NeverCleared(ops, email) && NeverCleared(ops, userName) && email != userName
    requires CountedFor(ops, email, userName) >= 1
    ensures Spread(ops, email, CountedFor(ops, email, userName)) || Spread(ops, userName, CountedFor(ops, email, userName))
  {
    var n := CountedFor(ops, email, userName);
    SpreadHalf(ops, if |CountedOf(ops, email)| >= |CountedOf(ops, userName)| then email else userName, n);
  }

  // A check and a failure right after it, under one identifier.
  function Tried(ops: seq<KeyedOp>, key: string, at: nat): seq<KeyedOp> {
    Add(Add(ops, On(key, Check(at))), On(key, Fail(at)))
  }

  lemma {:induction false} OpsOfTried(ops: seq<KeyedOp>, key: string, at: nat, other: string)
    ensures OpsOf(Tried(ops, key, at), other)
      == if other == key then Add(Add(OpsOf(ops, key), Check(at)), Fail(at)) else OpsOf(ops, other)
  {
    AddPrefix(ops, On(key, Check(at)));
    AddPrefix(Add(ops, On(key, Check(at))), On(key, Fail(at)));
  }

  // The identifier has been attacked with `m` failures as early as the lockouts allow.
  ghost predicate AttackedAt(ops: seq<KeyedOp>, key: string, start: nat, m: nat) {
    Attacked(Run(OpsOf(ops, key)), start, m)
  }

  lemma {:induction false} TriedOnce(ops: seq<KeyedOp>, key: string, start: nat, m: nat, other: string, b: nat)
    requires start > 0 && key != other && AttackedAt(ops, key, start, m) && AttackedAt(ops, other, start, b)
    ensures var more := Tried(ops, key, start + LockedFor(m / 5));
      AttackedAt(more, key, start, m + 1) && AttackedAt(more, other, start, b)
  {
    var at := start + LockedFor(m / 5);
    OpsOfTried(ops, key, at, key);
    OpsOfTried(ops, key, at, other);
    AttackOnce(OpsOf(ops, key), OpsOf(Tried(ops, key, at), key), start, m);
  }

  // Nothing is cleared and nothing is later than `at`.
  ghost predicate OnTime(ops: seq<KeyedOp>, at: nat) {
    InTimeOrder(ops) && forall i | 0 <= i < |ops| :: !ops[i].op.Clear? && ops[i].op.at <= at
  }

  lemma {:induction false} TriedOnTime(ops: seq<KeyedOp>, before: nat, key: string, at: nat)
    requires OnTime(ops, before) && before <= at
    ensures OnTime(Tried(ops, key, at), at)
  {
  }

  ghost predicate Doubled(ops: seq<KeyedOp>, start: nat, m: nat, email: string, userName: string) {
    AttackedAt(ops, email, start, m) && AttackedAt(ops, userName, start, m) && OnTime(ops, start + LockedFor(m / 5))
  }

  lemma {:induction false} OneMoreRound(ops: seq<KeyedOp>, start: nat, m: nat, email: string, userName: string)
    returns (more: seq<KeyedOp>)
    requires start > 0 && email != userName && Doubled(ops, start, m, email, userName)
    ensures Doubled(more, start, m + 1, email, userName)
  {
    var at := start + LockedFor(m / 5);
    OneMore(ops, start, m, email, userName);
    TriedOnce(Tried(ops, email, at), userName, start, m, email, m + 1);
    TriedOnTime(Tried(ops, email, at), at, userName, at);
    LockedForMonotone(m / 5, (m + 1) / 5);
    more := Tried(Tried(ops, email, at), userName, at);
  }

  // `m` failures under each identifier in turn.
  lemma {:induction false} DoubleAttack(start: nat, m: nat, email: string, userName: string) returns (ops: seq<KeyedOp>)
    requires start > 0 && email != userName
    ensures Doubled(ops, start, m, email, userName)
  {
    if m == 0 {
      ops := [];
    } else {
      var before := DoubleAttack(start, m - 1, email, userName);
      ops := OneMoreRound(before, start, m - 1, email, userName);
    }
  }

  lemma {:induction false} OneMore(ops: seq<KeyedOp>, start: nat, m: nat, email: string, userName: string)
    requires start > 0 && email != userName && AttackedAt(ops, email, start, m) && AttackedAt(ops, userName, start, m)
    requires OnTime(ops, start + LockedFor(m / 5))
    ensures var at := start + LockedFor(m / 5); var more := Tried(ops, email, at);
      AttackedAt(more, email, start, m + 1) && AttackedAt(more, userName, start, m) && OnTime(more, at)
  {
    TriedOnce(ops, email, start, m, userName, m);
    TriedOnTime(ops, start + LockedFor(m / 5), email, start + LockedFor(m / 5));
  }

  // One more under the email than under the user name.
  lemma {:induction false} OddAttack(start: nat, m: nat, email: string, userName: string) returns (ops: seq<KeyedOp>)
    requires start > 0 && email != userName
    ensures AttackedAt(ops, email, start, m + 1) && AttackedAt(ops, userName, start, m) && OnTime(ops, start + LockedFor(m / 5))
  {
    var even := DoubleAttack(start, m, email, userName);
    OneMore(even, start, m, email, userName);
    ops := Tried(even, email, start + LockedFor(m / 5));
  }

  ghost predicate AttackTimes(ops: seq<KeyedOp>, key: string, start: nat, m: nat) {
    var counted := CountedOf(ops, key);
    |counted| == m && (m > 0 ==> counted[0] == start && counted[m - 1] == start + LockedFor((m - 1) / 5))
  }

  lemma {:induction false} AttackedInTime(ops: seq<KeyedOp>, key: string, start: nat, m: nat)
    requires AttackedAt(ops, key, start, m)
    ensures AttackTimes(ops, key, start, m)
  {
  }

  lemma {:induction false} Summary(ops: seq<KeyedOp>, start: nat, a: nat, b: nat, email: string, userName: string, at: nat)
    requires AttackedAt(ops, email, start, a) && AttackedAt(ops, userName, start, b) && OnTime(ops, at)
    ensures AttackTimes(ops, email, start, a) && AttackTimes(ops, userName, start, b)
    ensures InTimeOrder(ops) && NeverCleared(ops, email) && NeverCleared(ops, userName)
  {
    AttackedInTime(ops, email, start, a);
    AttackedInTime(ops, userName, start, b);
  }

  // `a` failures under the email and `b` under the user name, each as early as possible.
  lemma {:induction false} UnevenTimes(start: nat, a: nat, b: nat, email: string, userName: string) returns (ops: seq<KeyedOp>)
    requires start > 0 && email != userName && (a == b || a == b + 1)
    ensures AttackTimes(ops, email, start, a) && AttackTimes(ops, userName, start, b)
    ensures InTimeOrder(ops) && NeverCleared(ops, email) && NeverCleared(ops, userName)
  {
    if a == b {
      ops := DoubleAttack(start, b, email, userName);
      Summary(ops, start, b, b, email, userName, start + LockedFor(b / 5));
    } else {
      ops := OddAttack(start, b, email, userName);
      Summary(ops, start, b + 1, b, email, userName, start + LockedFor(b / 5));
    }
  }

  lemma {:induction false} Halves(n: nat)
    requires n >= 1
    ensures var a, b := n - n / 2, n / 2;
      && a >= 1 && a + b == n && (a == b || a == b + 1)
      && (a > b ==> (a - 1) / 5 == (n - 1) / 10) && (a == b ==> b >= 1 && (b - 1) / 5 == (n - 1) / 10)
  {
    assert (n - 1) / 10 == (n - 1) / 2 / 5;
  }

  // No better bound holds for a user: for every n there is such a run with n counted failures, the
  // first at `start` and the last, under `key`, as late as the bound says.
  lemma {:induction false} BruteForceBoundPerUserIsExact(start: nat, n: nat, email: string, userName: string)
    returns (ops: seq<KeyedOp>, key: string)
    requires start > 0 && n >= 1 && email != userName
    ensures InTimeOrder(ops) && NeverCleared(ops, email) && NeverCleared(ops, userName)
    ensures CountedFor(ops, email, userName) == n && CountedOf(ops, email) != [] && CountedOf(ops, email)[0] == start
    ensures key == email || key == userName
    ensures var counted := CountedOf(ops, key);
      counted != [] && counted[|counted| - 1] == start + 300000 * FiveMinutes((n - 1) / 10)
  {
    LockedForSum((n - 1) / 10);
    Halves(n);
    ops := UnevenTimes(start, n - n / 2, n / 2, email, userName);
    key := if n - n / 2 > n / 2 then email else userName;
  }
}
