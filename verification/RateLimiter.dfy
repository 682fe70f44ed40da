/**
 The fixed-window rate limiter of server/security.ts. Times are `Date.now()` values.
 */
module RateLimiter {
  import opened Wrappers

  datatype Record = Record(count: int, resetTime: int)

  datatype Result = Result(allowed: bool, limit: int, remaining: int, resetTime: int, retryAfterSeconds: int)

  // ---------- one key ----------

  predicate StartsWindow(rec: Option<Record>, now: int) { rec.None? || rec.value.resetTime < now }

  predicate Allows(rec: Option<Record>, maxRequests: int, now: int) {
    StartsWindow(rec, now) || rec.value.count < maxRequests
  }

  function Hit(rec: Option<Record>, maxRequests: int, windowMs: int, now: int): Option<Record> {
    if StartsWindow(rec, now) then Some(Record(1, now + windowMs))
    else if rec.value.count >= maxRequests then rec
    else Some(rec.value.(count := rec.value.count + 1))
  }

  // `Math.max(1, Math.ceil(ms / 1000))`
  function SecondsLeft(ms: int): int {
    var s := (ms + 999) / 1000;
    if s < 1 then 1 else s
  }

  function ResultOf(rec: Option<Record>, maxRequests: int, windowMs: int, now: int): Result {
    if StartsWindow(rec, now) then Result(true, maxRequests, maxRequests - 1, now + windowMs, 0)
    else if rec.value.count >= maxRequests then
      Result(false, maxRequests, 0, rec.value.resetTime, SecondsLeft(rec.value.resetTime - now))
    else
      var left := maxRequests - (rec.value.count + 1);
      Result(true, maxRequests, if left > 0 then left else 0, rec.value.resetTime, 0)
  }

  // ---------- runs ----------

  // An allowed request and the number of the window it fell into.
  datatype Allowed = Allowed(at: int, window: nat)

  datatype Log = Log(rec: Option<Record>, starts: seq<int>, allowed: seq<Allowed>)

  function Run(times: seq<int>, maxRequests: int, windowMs: int): Log {
    if times == [] then Log(None, [], [])
    else Next(Run(times[..|times| - 1], maxRequests, windowMs), times[|times| - 1], maxRequests, windowMs)
  }

  function Next(log: Log, now: int, maxRequests: int, windowMs: int): Log {
    var rec := Hit(log.rec, maxRequests, windowMs, now);
    if StartsWindow(log.rec, now) then Log(rec, Add(log.starts, now), Add(log.allowed, Allowed(now, |log.starts|)))
    else if Allows(log.rec, maxRequests, now) && log.starts != [] then
      Log(rec, log.starts, Add(log.allowed, Allowed(now, |log.starts| - 1)))
    else log.(rec := rec)
  }

  ghost predicate Sorted(times: seq<int>) {
    forall i, j | 0 <= i < j < |times| :: times[i] <= times[j]
  }

  // How many allowed requests of window `w` lie between `from` and `until`, both included.
  function CountIn(allowed: seq<Allowed>, w: nat, from: int, until: int): nat {
    if allowed == [] then 0
    else
      var last := allowed[|allowed| - 1];
      CountIn(allowed[..|allowed| - 1], w, from, until) + (if last.window == w && from <= last.at <= until then 1 else 0)
  }

  function CountWindow(allowed: seq<Allowed>, w: nat): nat {
    if allowed == [] then 0
    else CountWindow(allowed[..|allowed| - 1], w) + (if allowed[|allowed| - 1].window == w then 1 else 0)
  }

  function CountBetween(allowed: seq<Allowed>, from: int, until: int): nat {
    if allowed == [] then 0
    else
      CountBetween(allowed[..|allowed| - 1], from, until)
      + (if from <= allowed[|allowed| - 1].at <= until then 1 else 0)
  }

  // The most one window lets through: its first request is always allowed.
  function Cap(maxRequests: int): nat { if maxRequests < 1 then 1 else maxRequests }

  // Windows open more than their length apart.
  ghost predicate Spaced(starts: seq<int>, windowMs: int, now: int) {
    && (forall i | 0 <= i < |starts| :: starts[i] <= now)
    && (forall i, j | 0 <= i < j < |starts| :: starts[i] + windowMs < starts[j])
  }

  // Every allowed request lies in its window, and every window was opened by one.
  ghost predicate Housed(starts: seq<int>, allowed: seq<Allowed>, windowMs: int) {
    && (forall i | 0 <= i < |allowed| :: Inside(starts, allowed[i], windowMs))
    && (forall w | 0 <= w < |starts| :: Allowed(starts[w], w) in allowed)
  }

  predicate Inside(starts: seq<int>, a: Allowed, windowMs: int) {
    a.window < |starts| && starts[a.window] <= a.at <= starts[a.window] + windowMs
  }

  ghost predicate Capped(allowed: seq<Allowed>, windows: nat, cap: nat) {
    && (forall w: nat {:trigger CountWindow(allowed, w)} :: CountWindow(allowed, w) <= cap)
    && (forall w: nat {:trigger CountWindow(allowed, w)} | w >= windows :: CountWindow(allowed, w) == 0)
  }

  ghost predicate Current(log: Log, windowMs: int) {
    if log.starts == [] then log.rec.None?
    else
      var last := |log.starts| - 1;
      log.rec == Some(Record(CountWindow(log.allowed, last), log.starts[last] + windowMs))
  }

  ghost predicate Inv(log: Log, maxRequests: int, windowMs: int, now: int) {
    && Spaced(log.starts, windowMs, now)
    && Housed(log.starts, log.allowed, windowMs)
    && Capped(log.allowed, |log.starts|, Cap(maxRequests))
    && Current(log, windowMs)
  }

  lemma CountAppend(allowed: seq<Allowed>, a: Allowed, w: nat)
    ensures CountWindow(Add(allowed, a), w) == CountWindow(allowed, w) + (if a.window == w then 1 else 0)
  {
    AddPrefix(allowed, a);
  }

  lemma CappedAppend(allowed: seq<Allowed>, windows: nat, a: Allowed, cap: nat)
    requires Capped(allowed, windows, cap) && CountWindow(allowed, a.window) < cap
    ensures Capped(Add(allowed, a), if a.window >= windows then a.window + 1 else windows, cap)
  {
    forall w: nat ensures CountWindow(Add(allowed, a), w) == CountWindow(allowed, w) + (if a.window == w then 1 else 0) {
      CountAppend(allowed, a, w);
    }
  }

  lemma HousedOpen(starts: seq<int>, allowed: seq<Allowed>, windowMs: int, now: int)
    requires Housed(starts, allowed, windowMs) && windowMs >= 0
    ensures Housed(Add(starts, now), Add(allowed, Allowed(now, |starts|)), windowMs)
  {
    var starts', allowed' := Add(starts, now), Add(allowed, Allowed(now, |starts|));
    forall i | 0 <= i < |allowed'| ensures Inside(starts', allowed'[i], windowMs) {
      if i < |allowed| { assert Inside(starts, allowed[i], windowMs); }
    }
    assert allowed'[|allowed|] == Allowed(now, |starts|);
    forall w | 0 <= w < |starts'| ensures Allowed(starts'[w], w) in allowed' {
      if w < |starts| {
        assert Allowed(starts[w], w) in allowed;
        var i :| 0 <= i < |allowed| && allowed[i] == Allowed(starts[w], w);
        assert allowed'[i] == allowed[i];
      }
    }
  }

  lemma HousedMore(starts: seq<int>, allowed: seq<Allowed>, windowMs: int, a: Allowed)
    requires Housed(starts, allowed, windowMs) && Inside(starts, a, windowMs)
    ensures Housed(starts, Add(allowed, a), windowMs)
  {
    forall w | 0 <= w < |starts| ensures Allowed(starts[w], w) in Add(allowed, a) {
      assert Allowed(starts[w], w) in allowed;
      var i :| 0 <= i < |allowed| && allowed[i] == Allowed(starts[w], w);
      assert Add(allowed, a)[i] == allowed[i];
    }
  }

  lemma SpacedOpen(starts: seq<int>, windowMs: int, before: int, now: int)
    requires Spaced(starts, windowMs, before) && before <= now
    requires windowMs >= 0 && (starts == [] || starts[|starts| - 1] + windowMs < now)
    ensures Spaced(Add(starts, now), windowMs, now)
  {
    var starts' := Add(starts, now);
    forall i, j | 0 <= i < j < |starts'| ensures starts'[i] + windowMs < starts'[j] {
      if j == |starts| && i < j - 1 { assert starts[i] + windowMs < starts[j - 1]; }
    }
  }

  lemma CurrentOpen(log: Log, maxRequests: int, windowMs: int, now: int)
    requires Capped(log.allowed, |log.starts|, Cap(maxRequests)) && StartsWindow(log.rec, now)
    ensures Current(Next(log, now, maxRequests, windowMs), windowMs)
  {
    CountAppend(log.allowed, Allowed(now, |log.starts|), |log.starts|);
    assert CountWindow(log.allowed, |log.starts|) == 0;
  }

  lemma CappedOpen(allowed: seq<Allowed>, windows: nat, now: int, cap: nat)
    requires Capped(allowed, windows, cap) && cap >= 1
    ensures Capped(Add(allowed, Allowed(now, windows)), windows + 1, cap)
  {
    assert CountWindow(allowed, windows) == 0;
    CappedAppend(allowed, windows, Allowed(now, windows), cap);
  }

  lemma OpenKeeps(log: Log, maxRequests: int, windowMs: int, before: int, now: int)
    requires Inv(log, maxRequests, windowMs, before) && before <= now && windowMs >= 0 && StartsWindow(log.rec, now)
    ensures Inv(Next(log, now, maxRequests, windowMs), maxRequests, windowMs, now)
  {
    SpacedOpen(log.starts, windowMs, before, now);
    HousedOpen(log.starts, log.allowed, windowMs, now);
    CappedOpen(log.allowed, |log.starts|, now, Cap(maxRequests));
    CurrentOpen(log, maxRequests, windowMs, now);
  }

  lemma CappedMore(allowed: seq<Allowed>, windows: nat, now: int, cap: nat)
    requires windows >= 1 && Capped(allowed, windows, cap) && CountWindow(allowed, windows - 1) < cap
    ensures Capped(Add(allowed, Allowed(now, windows - 1)), windows, cap)
    ensures CountWindow(Add(allowed, Allowed(now, windows - 1)), windows - 1) == CountWindow(allowed, windows - 1) + 1
  {
    CappedAppend(allowed, windows, Allowed(now, windows - 1), cap);
    CountAppend(allowed, Allowed(now, windows - 1), windows - 1);
  }

  // A request in the current window, part by part.
  lemma MoreSpaced(log: Log, maxRequests: int, windowMs: int, before: int, now: int)
    requires Spaced(log.starts, windowMs, before) && before <= now && !StartsWindow(log.rec, now)
    ensures Spaced(Next(log, now, maxRequests, windowMs).starts, windowMs, now)
  {
    assert Next(log, now, maxRequests, windowMs).starts == log.starts;
  }

  lemma MoreHoused(log: Log, maxRequests: int, windowMs: int, before: int, now: int)
    requires Housed(log.starts, log.allowed, windowMs) && Current(log, windowMs) && !StartsWindow(log.rec, now)
    requires log.starts != [] ==> log.starts[|log.starts| - 1] <= now
    ensures var next := Next(log, now, maxRequests, windowMs); Housed(next.starts, next.allowed, windowMs)
  {
    if Allows(log.rec, maxRequests, now) {
      HousedMore(log.starts, log.allowed, windowMs, Allowed(now, |log.starts| - 1));
    }
  }

  lemma MoreCapped(log: Log, maxRequests: int, windowMs: int, now: int)
    requires Capped(log.allowed, |log.starts|, Cap(maxRequests)) && Current(log, windowMs) && !StartsWindow(log.rec, now)
    ensures var next := Next(log, now, maxRequests, windowMs); Capped(next.allowed, |next.starts|, Cap(maxRequests))
    ensures Current(Next(log, now, maxRequests, windowMs), windowMs)
  {
    if Allows(log.rec, maxRequests, now) {
      CappedMore(log.allowed, |log.starts|, now, Cap(maxRequests));
    }
  }

  lemma MoreKeeps(log: Log, maxRequests: int, windowMs: int, before: int, now: int)
    requires Inv(log, maxRequests, windowMs, before) && before <= now && !StartsWindow(log.rec, now)
    ensures Inv(Next(log, now, maxRequests, windowMs), maxRequests, windowMs, now)
  {
    MoreSpaced(log, maxRequests, windowMs, before, now);
    MoreHoused(log, maxRequests, windowMs, before, now);
    MoreCapped(log, maxRequests, windowMs, now);
  }

  lemma {:induction false} RunKeeps(times: seq<int>, maxRequests: int, windowMs: int, now: int)
    requires Sorted(times) && windowMs >= 0 && (times == [] || times[|times| - 1] == now)
    ensures Inv(Run(times, maxRequests, windowMs), maxRequests, windowMs, now)
  {
    if times != [] {
      var last := |times| - 1;
      var before := if last == 0 then now else times[last - 1];
      RunKeeps(times[..last], maxRequests, windowMs, before);
      StepKeeps(Run(times[..last], maxRequests, windowMs), maxRequests, windowMs, before, now);
    } else {
      NothingYet(maxRequests, windowMs, now);
    }
  }

  lemma NothingYet(maxRequests: int, windowMs: int, now: int)
    ensures Inv(Log(None, [], []), maxRequests, windowMs, now)
  {
  }

  lemma StepKeeps(log: Log, maxRequests: int, windowMs: int, before: int, now: int)
    requires Inv(log, maxRequests, windowMs, before) && before <= now && windowMs >= 0
    ensures Inv(Next(log, now, maxRequests, windowMs), maxRequests, windowMs, now)
  {
    if StartsWindow(log.rec, now) {
      OpenKeeps(log, maxRequests, windowMs, before, now);
    } else {
      MoreKeeps(log, maxRequests, windowMs, before, now);
    }
  }

  // ---------- the sliding bound ----------

  lemma {:induction false} TwoWindows(allowed: seq<Allowed>, k: nat, from: int, until: int)
    requires forall i | 0 <= i < |allowed| && from <= allowed[i].at <= until :: allowed[i].window == k || allowed[i].window == k + 1
    ensures CountBetween(allowed, from, until) == CountIn(allowed, k, from, until) + CountIn(allowed, k + 1, from, until)
  {
    if allowed != [] {
      TwoWindows(allowed[..|allowed| - 1], k, from, until);
    }
  }

  lemma {:induction false} InAtMostWindow(allowed: seq<Allowed>, w: nat, from: int, until: int)
    ensures CountIn(allowed, w, from, until) <= CountWindow(allowed, w)
    ensures (exists a | a in allowed :: a.window == w && !(from <= a.at <= until)) ==>
      CountIn(allowed, w, from, until) < CountWindow(allowed, w)
  {
    if allowed != [] {
      InAtMostWindow(allowed[..|allowed| - 1], w, from, until);
      if exists a | a in allowed :: a.window == w && !(from <= a.at <= until) {
        var a :| a in allowed && a.window == w && !(from <= a.at <= until);
        assert a == allowed[|allowed| - 1] || a in allowed[..|allowed| - 1];
      }
    }
  }

  lemma {:induction false} NoneIn(allowed: seq<Allowed>, w: nat, from: int, until: int)
    requires forall i | 0 <= i < |allowed| && allowed[i].window == w :: !(from <= allowed[i].at <= until)
    ensures CountIn(allowed, w, from, until) == 0
  {
    if allowed != [] {
      NoneIn(allowed[..|allowed| - 1], w, from, until);
    }
  }

  lemma {:induction false} NoneBetween(allowed: seq<Allowed>, from: int, until: int)
    requires forall i | 0 <= i < |allowed| :: !(from <= allowed[i].at <= until)
    ensures CountBetween(allowed, from, until) == 0
  {
    if allowed != [] {
      NoneBetween(allowed[..|allowed| - 1], from, until);
    }
  }

  // A window that opened at most `windowMs` after `from` and one two windows later never both reach
  // into the interval.
  lemma Neighbours(starts: seq<int>, a: Allowed, b: Allowed, windowMs: int, now: int, from: int)
    requires Spaced(starts, windowMs, now) && Inside(starts, a, windowMs) && Inside(starts, b, windowMs)
    requires from <= a.at <= from + windowMs && from <= b.at <= from + windowMs && a.window <= b.window
    ensures b.window <= a.window + 1
  {
    if b.window > a.window + 1 {
      Between(starts, a.window, b.window, windowMs, now);
      assert false;
    }
  }

  lemma Between(starts: seq<int>, i: nat, k: nat, windowMs: int, now: int)
    requires Spaced(starts, windowMs, now) && i + 1 < k < |starts|
    ensures starts[i] + 2 * windowMs < starts[k]
  {
    assert starts[i] + windowMs < starts[i + 1];
  }

  function MinWindow(allowed: seq<Allowed>, from: int, until: int): (f: nat)
    requires exists i | 0 <= i < |allowed| :: from <= allowed[i].at <= until
    ensures f < |allowed| && from <= allowed[f].at <= until
    ensures forall i | 0 <= i < |allowed| && from <= allowed[i].at <= until :: allowed[f].window <= allowed[i].window
  {
    var last := |allowed| - 1;
    if exists i | 0 <= i < last :: from <= allowed[i].at <= until then
      var f := MinWindow(allowed[..last], from, until);
      assert forall i | 0 <= i < last :: allowed[i] == allowed[..last][i];
      if from <= allowed[last].at <= until && allowed[last].window < allowed[f].window then last else f
    else last
  }

  // Whatever the arrival times: any closed interval as long as the window holds at most twice the
  // maximum less one allowed requests, and a single window at most the maximum.
  lemma SlidingBound(times: seq<int>, maxRequests: int, windowMs: int, from: int)
    requires Sorted(times) && windowMs >= 0
    ensures var most := if maxRequests < 1 then 1 else maxRequests;
      && CountBetween(Run(times, maxRequests, windowMs).allowed, from, from + windowMs) <= 2 * most - 1
      && forall w: nat :: CountWindow(Run(times, maxRequests, windowMs).allowed, w) <= most
  {
    var now := if times == [] then 0 else times[|times| - 1];
    RunKeeps(times, maxRequests, windowMs, now);
    LogBound(Run(times, maxRequests, windowMs), maxRequests, windowMs, now, from);
  }

  lemma LogBound(log: Log, maxRequests: int, windowMs: int, now: int, from: int)
    requires Inv(log, maxRequests, windowMs, now) && windowMs >= 0
    ensures CountBetween(log.allowed, from, from + windowMs) <= 2 * Cap(maxRequests) - 1
  {
    var until := from + windowMs;
    if exists i | 0 <= i < |log.allowed| :: from <= log.allowed[i].at <= until {
      var f := MinWindow(log.allowed, from, until);
      var k := log.allowed[f].window;
      forall i | 0 <= i < |log.allowed| && from <= log.allowed[i].at <= until
        ensures log.allowed[i].window == k || log.allowed[i].window == k + 1
      {
        Neighbours(log.starts, log.allowed[f], log.allowed[i], windowMs, now, from);
      }
      TwoWindows(log.allowed, k, from, until);
      PairBound(log.starts, log.allowed, k, windowMs, now, from, Cap(maxRequests));
    } else {
      NoneBetween(log.allowed, from, until);
    }
  }

  // If the second window reaches into the interval, the first opened before it, so that the
  // request that opened it lies outside.
  lemma PairBound(starts: seq<int>, allowed: seq<Allowed>, k: nat, windowMs: int, now: int, from: int, cap: nat)
    requires Spaced(starts, windowMs, now) && Housed(starts, allowed, windowMs) && Capped(allowed, |starts|, cap)
    requires k < |starts| && windowMs >= 0 && cap >= 1
    ensures CountIn(allowed, k, from, from + windowMs) + CountIn(allowed, k + 1, from, from + windowMs) <= 2 * cap - 1
  {
    var until := from + windowMs;
    InAtMostWindow(allowed, k, from, until);
    InAtMostWindow(allowed, k + 1, from, until);
    if exists i | 0 <= i < |allowed| :: allowed[i].window == k + 1 && from <= allowed[i].at <= until {
      var i :| 0 <= i < |allowed| && allowed[i].window == k + 1 && from <= allowed[i].at <= until;
      assert Inside(starts, allowed[i], windowMs);
      assert starts[k] + windowMs < starts[k + 1];
      assert Allowed(starts[k], k) in allowed;
    } else {
      NoneIn(allowed, k + 1, from, until);
    }
  }

  // ---------- the bound is exact ----------

  // After `times` the key's record is `rec`, with `n` allowed requests between `from` and `until`.
  ghost predicate Reaches(times: seq<int>, maxRequests: int, windowMs: int, rec: Record, n: nat, from: int, until: int) {
    var log := Run(times, maxRequests, windowMs);
    log.starts != [] && log.rec == Some(rec) && CountBetween(log.allowed, from, until) == n
  }

  lemma CountBetweenAppend(allowed: seq<Allowed>, a: Allowed, from: int, until: int)
    ensures CountBetween(Add(allowed, a), from, until)
      == CountBetween(allowed, from, until) + (if from <= a.at <= until then 1 else 0)
  {
    AddPrefix(allowed, a);
  }

  lemma RunAppend(times: seq<int>, now: int, maxRequests: int, windowMs: int)
    ensures Run(Add(times, now), maxRequests, windowMs) == Next(Run(times, maxRequests, windowMs), now, maxRequests, windowMs)
  {
    AddPrefix(times, now);
  }

  // Requests in order, none later than `now`.
  ghost predicate UpTo(times: seq<int>, now: int) {
    Sorted(times) && forall i | 0 <= i < |times| :: times[i] <= now
  }

  lemma UpToMore(times: seq<int>, now: int)
    requires UpTo(times, now)
    ensures UpTo(Add(times, now), now)
  {
  }

  lemma OneMore(times: seq<int>, now: int, maxRequests: int, windowMs: int, rec: Record, n: nat, from: int, until: int)
    requires Reaches(times, maxRequests, windowMs, rec, n, from, until)
    requires now <= rec.resetTime && rec.count < maxRequests && from <= now <= until
    ensures Reaches(Add(times, now), maxRequests, windowMs, rec.(count := rec.count + 1), n + 1, from, until)
  {
    RunAppend(times, now, maxRequests, windowMs);
    var log := Run(times, maxRequests, windowMs);
    CountBetweenAppend(log.allowed, Allowed(now, |log.starts| - 1), from, until);
  }

  lemma {:induction false} Burst(times: seq<int>, more: nat, now: int, maxRequests: int, windowMs: int, rec: Record,
                                 n: nat, from: int, until: int) returns (r: seq<int>)
    requires Reaches(times, maxRequests, windowMs, rec, n, from, until) && UpTo(times, now)
    requires now <= rec.resetTime && rec.count + more <= maxRequests && from <= now <= until
    ensures Reaches(r, maxRequests, windowMs, Record(rec.count + more, rec.resetTime), n + more, from, until) && UpTo(r, now)
    decreases more
  {
    if more == 0 {
      r := times;
    } else {
      var most := Burst(times, more - 1, now, maxRequests, windowMs, rec, n, from, until);
      OneMore(most, now, maxRequests, windowMs, Record(rec.count + more - 1, rec.resetTime), n + more - 1, from, until);
      UpToMore(most, now);
      r := Add(most, now);
    }
  }

  lemma Opens(times: seq<int>, now: int, maxRequests: int, windowMs: int, n: nat, from: int, until: int)
    requires StartsWindow(Run(times, maxRequests, windowMs).rec, now)
    requires CountBetween(Run(times, maxRequests, windowMs).allowed, from, until) == n
    ensures Reaches(Add(times, now), maxRequests, windowMs, Record(1, now + windowMs),
                    n + (if from <= now <= until then 1 else 0), from, until)
  {
    RunAppend(times, now, maxRequests, windowMs);
    var log := Run(times, maxRequests, windowMs);
    CountBetweenAppend(log.allowed, Allowed(now, |log.starts|), from, until);
  }

  lemma FirstOpens(now: int, maxRequests: int, windowMs: int, from: int, until: int) returns (r: seq<int>)
    requires !(from <= now <= until)
    ensures Reaches(r, maxRequests, windowMs, Record(1, now + windowMs), 0, from, until) && UpTo(r, now)
  {
    r := Add([], now);
    Opens([], now, maxRequests, windowMs, 0, from, until);
  }

  lemma NextOpens(times: seq<int>, last: int, now: int, maxRequests: int, windowMs: int, rec: Record,
                  n: nat, from: int, until: int) returns (r: seq<int>)
    requires Reaches(times, maxRequests, windowMs, rec, n, from, until) && UpTo(times, last)
    requires last <= now && rec.resetTime < now && from <= now <= until
    ensures Reaches(r, maxRequests, windowMs, Record(1, now + windowMs), n + 1, from, until) && UpTo(r, now)
  {
    r := Add(times, now);
    Opens(times, now, maxRequests, windowMs, n, from, until);
    UpToMore(times, now);
  }

  // One request opens a window and all others of that window come at its last instant.
  lemma LateWindow(start: int, maxRequests: nat, windowMs: nat, reset: int, until: int) returns (r: seq<int>)
    requires maxRequests >= 1 && windowMs >= 1 && reset == start + windowMs && until == reset + windowMs
    ensures Reaches(r, maxRequests, windowMs, Record(maxRequests, reset), maxRequests - 1, reset, until) && UpTo(r, reset)
  {
    var first := FirstOpens(start, maxRequests, windowMs, reset, until);
    r := Burst(first, maxRequests - 1, reset, maxRequests, windowMs, Record(1, reset), 0, reset, until);
  }

  // The next window opens and fills up one millisecond later.
  lemma EarlyWindow(late: seq<int>, maxRequests: nat, windowMs: nat, reset: int, until: int) returns (r: seq<int>)
    requires maxRequests >= 1 && windowMs >= 1 && until == reset + windowMs
    requires Reaches(late, maxRequests, windowMs, Record(maxRequests, reset), maxRequests - 1, reset, until) && UpTo(late, reset)
    ensures CountBetween(Run(r, maxRequests, windowMs).allowed, reset, until) == 2 * maxRequests - 1 && Sorted(r)
  {
    var next := NextOpens(late, reset, reset + 1, maxRequests, windowMs, Record(maxRequests, reset),
                          maxRequests - 1, reset, until);
    r := Burst(next, maxRequests - 1, reset + 1, maxRequests, windowMs, Record(1, reset + 1 + windowMs),
               maxRequests, reset, until);
  }

  // An interval with exactly that many allowed requests.
  lemma SlidingBoundIsExact(start: int, maxRequests: nat, windowMs: nat) returns (times: seq<int>)
    requires maxRequests >= 1 && windowMs >= 1
    ensures Sorted(times)
    ensures CountBetween(Run(times, maxRequests, windowMs).allowed, start + windowMs, start + windowMs + windowMs)
      == 2 * maxRequests - 1
  {
    var late := LateWindow(start, maxRequests, windowMs, start + windowMs, start + windowMs + windowMs);
    times := EarlyWindow(late, maxRequests, windowMs, start + windowMs, start + windowMs + windowMs);
  }

  function HitAll(rec: Option<Record>, maxRequests: int, windowMs: int, times: seq<int>): Option<Record> {
    if times == [] then rec
    else Hit(HitAll(rec, maxRequests, windowMs, times[..|times| - 1]), maxRequests, windowMs, times[|times| - 1])
  }

  // What a call does and is told: without a window, or later than its end, it opens one and is its first
  // request; in a window that is full it is denied and changes nothing; otherwise it counts.
  lemma {:induction false} HitExactly(rec: Option<Record>, maxRequests: int, windowMs: int, now: int)
    ensures var after, told := Hit(rec, maxRequests, windowMs, now), ResultOf(rec, maxRequests, windowMs, now);
      && told.limit == maxRequests && after.Some? && told.resetTime == after.value.resetTime
      && if rec.None? || now > rec.value.resetTime then
           after == Some(Record(1, now + windowMs)) && told.allowed && told.remaining == maxRequests - 1 && told.retryAfterSeconds == 0
         else if rec.value.count < maxRequests then
           && after == Some(Record(rec.value.count + 1, rec.value.resetTime))
           && told.allowed && told.remaining == maxRequests - after.value.count && told.retryAfterSeconds == 0
         else after == rec && !told.allowed && told.remaining == 0 && told.retryAfterSeconds >= 1
  {
  }

  // The requests counted as allowed are those that are told so.
  lemma {:induction false} AllowedIsTold(log: Log, maxRequests: int, windowMs: int, now: int)
    requires log.rec.Some? ==> log.starts != []
    ensures var next := Next(log, now, maxRequests, windowMs);
      && next.rec == Hit(log.rec, maxRequests, windowMs, now)
      && |next.allowed| == |log.allowed| + (if ResultOf(log.rec, maxRequests, windowMs, now).allowed then 1 else 0)
  {
  }

  lemma {:induction false} HitAllIsRun(maxRequests: int, windowMs: int, times: seq<int>)
    ensures HitAll(None, maxRequests, windowMs, times) == Run(times, maxRequests, windowMs).rec
  {
    if times != [] { HitAllIsRun(maxRequests, windowMs, times[..|times| - 1]); }
  }

  // A full window stays as it is, whatever calls come, exactly up to the instant of its reset, which
  // still belongs to it: a call is denied up to then and opens a new window from the next millisecond on.
  lemma {:induction false} FullUntilReset(rec: Record, maxRequests: int, windowMs: int, times: seq<int>, now: int)
    requires rec.count >= maxRequests && forall i | 0 <= i < |times| :: times[i] <= rec.resetTime
    ensures var after := HitAll(Some(rec), maxRequests, windowMs, times);
      && after == Some(rec)
      && (ResultOf(after, maxRequests, windowMs, now).allowed <==> now > rec.resetTime)
      && (now > rec.resetTime ==> Hit(after, maxRequests, windowMs, now) == Some(Record(1, now + windowMs)))
  {
    if times != [] { FullUntilReset(rec, maxRequests, windowMs, times[..|times| - 1], now); }
  }

  // `n` more calls at one instant.
  function HitAgain(rec: Option<Record>, maxRequests: int, windowMs: int, at: int, n: nat): Option<Record> {
    if n == 0 then rec else Hit(HitAgain(rec, maxRequests, windowMs, at, n - 1), maxRequests, windowMs, at)
  }

  // An allowed caller is told exactly how many more calls the window still lets through.
  lemma {:induction false} RemainingIsExact(rec: Option<Record>, maxRequests: int, windowMs: nat, now: int, at: int, n: nat)
    requires maxRequests >= 1 && ResultOf(rec, maxRequests, windowMs, now).allowed
    requires now <= at <= ResultOf(rec, maxRequests, windowMs, now).resetTime
    ensures var after := HitAgain(Hit(rec, maxRequests, windowMs, now), maxRequests, windowMs, at, n);
      && (Allows(after, maxRequests, at) <==> n < ResultOf(rec, maxRequests, windowMs, now).remaining)
      && after.Some? && after.value.resetTime == ResultOf(rec, maxRequests, windowMs, now).resetTime
      && after.value.count == Hit(rec, maxRequests, windowMs, now).value.count
         + if n < ResultOf(rec, maxRequests, windowMs, now).remaining then n else ResultOf(rec, maxRequests, windowMs, now).remaining
  {
    if n > 0 { RemainingIsExact(rec, maxRequests, windowMs, now, at, n - 1); }
  }

  // A denied caller that waits the seconds it is told finds the reset instant reached.
  lemma RetryAfterReachesReset(rec: Option<Record>, maxRequests: int, windowMs: int, now: int)
    requires !ResultOf(rec, maxRequests, windowMs, now).allowed
    ensures var s := ResultOf(rec, maxRequests, windowMs, now).retryAfterSeconds;
      s >= 1 && rec.value.resetTime <= now + 1000 * s && (s > 1 ==> now + 1000 * (s - 1) < rec.value.resetTime)
    ensures forall later | later > now + 1000 * ResultOf(rec, maxRequests, windowMs, now).retryAfterSeconds ::
      ResultOf(rec, maxRequests, windowMs, later).allowed
  {
  }

  // ---------- the registry ----------

  class Limiter {
    var records: map<string, Record>

    constructor ()
      ensures records == map[]
    {
      records := map[];
    }

    method Check(key: string, maxRequests: int, windowMs: int, now: int) returns (result: Result)
      modifies this
      ensures result == ResultOf(RecordOf(old(records), key), maxRequests, windowMs, now)
      ensures records == WithRecord(old(records), key, Hit(RecordOf(old(records), key), maxRequests, windowMs, now))
    {
      if key !in records || records[key].resetTime < now {
        records := records[key := Record(1, now + windowMs)];
        return Result(true, maxRequests, maxRequests - 1, now + windowMs, 0);
      }
      var record := records[key];
      if record.count >= maxRequests {
        assert records[key := record] == records;
        return Result(false, maxRequests, 0, record.resetTime, SecondsLeft(record.resetTime - now));
      }
      record := record.(count := record.count + 1);
      records := records[key := record];
      var left := maxRequests - record.count;
      result := Result(true, maxRequests, if left > 0 then left else 0, record.resetTime, 0);
    }

    method Clear(key: string)
      modifies this
      ensures records == old(records) - {key}
    {
      records := records - {key};
    }
  }

  function RecordOf(m: map<string, Record>, key: string): Option<Record> { if key in m then Some(m[key]) else None }

  function WithRecord(m: map<string, Record>, key: string, rec: Option<Record>): map<string, Record> {
    if rec.Some? then m[key := rec.value] else m - {key}
  }

  datatype Op = Request(key: string, maxRequests: int, windowMs: int, at: int) | Clearing(key: string, at: int)

  function RunAll(ops: seq<Op>): map<string, Record> {
    if ops == [] then map[]
    else
      var before := RunAll(ops[..|ops| - 1]);
      match ops[|ops| - 1]
      case Request(key, maxRequests, windowMs, at) =>
        WithRecord(before, key, Hit(RecordOf(before, key), maxRequests, windowMs, at))
      case Clearing(key, _) => before - {key}
  }

  function TimesOf(ops: seq<Op>, key: string): seq<int> {
    if ops == [] then []
    else
      var o := ops[|ops| - 1];
      if o.key == key then Add(TimesOf(ops[..|ops| - 1], key), o.at) else TimesOf(ops[..|ops| - 1], key)
  }

  lemma {:induction false} TimesSorted(ops: seq<Op>, key: string)
    requires forall i, j | 0 <= i < j < |ops| :: ops[i].at <= ops[j].at
    ensures Sorted(TimesOf(ops, key))
    ensures ops != [] ==> forall i | 0 <= i < |TimesOf(ops, key)| :: TimesOf(ops, key)[i] <= ops[|ops| - 1].at
  {
    if ops != [] {
      TimesSorted(ops[..|ops| - 1], key);
    }
  }

  ghost predicate UsedWith(ops: seq<Op>, key: string, maxRequests: int, windowMs: int) {
    forall o | o in ops && o.key == key :: o.Request? && o.maxRequests == maxRequests && o.windowMs == windowMs
  }

  // A key that is never cleared and always used with the same limits sees its own requests only,
  // whatever other keys do.
  lemma {:induction false} KeysAreIndependent(ops: seq<Op>, key: string, maxRequests: int, windowMs: int)
    requires UsedWith(ops, key, maxRequests, windowMs)
    ensures RecordOf(RunAll(ops), key) == Run(TimesOf(ops, key), maxRequests, windowMs).rec
  {
    if ops != [] {
      var before, o := ops[..|ops| - 1], ops[|ops| - 1];
      assert o in ops;
      KeysAreIndependent(before, key, maxRequests, windowMs);
      if o.key == key {
        RunAppend(TimesOf(before, key), o.at, maxRequests, windowMs);
      } else {
        assert TimesOf(ops, key) == TimesOf(before, key);
      }
    }
  }

  // The sliding bound holds for every such key of every run.
  lemma SlidingBoundPerKey(ops: seq<Op>, key: string, maxRequests: int, windowMs: int, from: int)
    requires forall i, j | 0 <= i < j < |ops| :: ops[i].at <= ops[j].at
    requires windowMs >= 0 && UsedWith(ops, key, maxRequests, windowMs)
    ensures var log := Run(TimesOf(ops, key), maxRequests, windowMs);
      && RecordOf(RunAll(ops), key) == log.rec
      && CountBetween(log.allowed, from, from + windowMs) <= if maxRequests < 1 then 1 else 2 * maxRequests - 1
  {
    TimesSorted(ops, key);
    KeysAreIndependent(ops, key, maxRequests, windowMs);
    SlidingBound(TimesOf(ops, key), maxRequests, windowMs, from);
  }
}
