/** The outbox of server/db.ts: events, their retries, and the passes over what is pending. */
module Outbox {
  import opened Wrappers

  const MAX_RETRIES: nat := 5

  // The text stored with a failure: that of the exception, or "Handler reported delivery failure".
  datatype Failure = Reported | Exception(message: string)

  datatype Event = Event(payload: nat, processed: bool, retryCount: nat, error: Option<Failure>)

  // What a handler does: it may return, throw, or return a promise, and may enqueue further events.
  datatype Outcome = Returned(ok: bool) | Threw(message: string) | Promised

  datatype Reply = Reply(outcome: Outcome, enqueued: seq<nat>)

  datatype Attempt = Attempt(event: nat, outcome: Outcome)

  // `log` lists the handler's invocations; the server keeps none, it is what the statements count.
  datatype State = State(events: seq<Event>, log: seq<Attempt>)

  // How the handler answers its n-th invocation ever, for the event at a position.
  type Handler = (nat, nat) -> Reply

  // ---------- the code ----------

  function Fresh(payload: nat): Event { Event(payload, false, 0, None) }

  // The events with fresh ones behind them.
  function Extended(events: seq<Event>, payloads: seq<nat>): (r: seq<Event>)
    ensures |r| == |events| + |payloads|
    ensures forall i | 0 <= i < |r| :: r[i] == if i < |events| then events[i] else Fresh(payloads[i - |events|])
  {
    seq(|events| + |payloads|, i requires 0 <= i < |events| + |payloads| =>
      if i < |events| then events[i] else Fresh(payloads[i - |events|]))
  }

  predicate Open(e: Event) { !e.processed && e.retryCount < MAX_RETRIES }

  // A promise is a true value, whatever it resolves to later.
  predicate Truthy(outcome: Outcome) { outcome.Promised? || (outcome.Returned? && outcome.ok) }

  function FailureOf(outcome: Outcome): Failure { if outcome.Threw? then Exception(outcome.message) else Reported }

  function Marked(e: Event, outcome: Outcome): Event {
    if Truthy(outcome) then e.(processed := true)
    else
      e.(retryCount := e.retryCount + 1,
         error := Some(FailureOf(outcome)))
  }

  function Deliver(s: State, i: nat, h: Handler): State
    requires i < |s.events|
  {
    var reply := h(i, |s.log|);
    var events := Extended(s.events, reply.enqueued);
    State(events[i := Marked(events[i], reply.outcome)], Add(s.log, Attempt(i, reply.outcome)))
  }

  // The positions of the open events among the first `n`.
  function OpenBelow(events: seq<Event>, n: nat): (pending: seq<nat>)
    requires n <= |events|
    ensures forall k | 0 <= k < |pending| :: pending[k] < n && Open(events[pending[k]])
    ensures forall j, k | 0 <= j < k < |pending| :: pending[j] < pending[k]
  {
    if n == 0 then []
    else
      var earlier := OpenBelow(events, n - 1);
      if Open(events[n - 1]) then Add(earlier, n - 1) else earlier
  }

  function PendingIn(events: seq<Event>): seq<nat> { OpenBelow(events, |events|) }

  predicate InRange(s: State, pending: seq<nat>) { forall k | 0 <= k < |pending| :: pending[k] < |s.events| }

  // The pass from the `k`-th pending event on.
  function PassFrom(s: State, pending: seq<nat>, k: nat, h: Handler): State
    requires k <= |pending| && InRange(s, pending)
    decreases |pending| - k
  {
    if k == |pending| then s else PassFrom(Deliver(s, pending[k], h), pending, k + 1, h)
  }

  function ProcessOutbox(s: State, h: Handler): State { PassFrom(s, PendingIn(s.events), 0, h) }

  function EnqueueOutbox(s: State, payload: nat): State { s.(events := Add(s.events, Fresh(payload))) }

  // ---------- what one delivery does ----------

  // An event is tried again while it is not processed and has failed less than five times. The value
  // true and a promise make it processed; anything else counts one failure and leaves its message.
  lemma {:induction false} MarkedExactly(e: Event, message: string)
    ensures Open(e) <==> !e.processed && e.retryCount < 5
    ensures Marked(e, Returned(true)) == Event(e.payload, true, e.retryCount, e.error)
    ensures Marked(e, Promised) == Event(e.payload, true, e.retryCount, e.error)
    ensures Marked(e, Returned(false)) == Event(e.payload, e.processed, e.retryCount + 1, Some(Reported))
    ensures Marked(e, Threw(message)) == Event(e.payload, e.processed, e.retryCount + 1, Some(Exception(message)))
  {
  }

  // What the handler enqueues comes behind all other events; no other event changes.
  lemma {:induction false} DeliverExactly(s: State, i: nat, h: Handler, k: nat)
    requires i < |s.events|
    ensures var reply, r := h(i, |s.log|), Deliver(s, i, h);
      && |r.events| == |s.events| + |reply.enqueued|
      && r.events[i] == Marked(s.events[i], reply.outcome)
      && (k < |s.events| && k != i ==> r.events[k] == s.events[k])
      && (k < |reply.enqueued| ==> r.events[|s.events| + k] == Event(reply.enqueued[k], false, 0, None))
      && |r.log| == |s.log| + 1 && r.log[|s.log|] == Attempt(i, reply.outcome)
      && (k < |s.log| ==> r.log[k] == s.log[k])
  {
  }

  lemma {:induction false} EnqueueExactly(s: State, payload: nat, k: nat)
    ensures var r := EnqueueOutbox(s, payload);
      && r.log == s.log && |r.events| == |s.events| + 1 && r.events[|s.events|] == Event(payload, false, 0, None)
      && (k < |s.events| ==> r.events[k] == s.events[k])
  {
  }

  // ---------- attempts are conserved ----------

  function Invocations(log: seq<Attempt>, i: nat): nat {
    if log == [] then 0
    else Invocations(log[..|log| - 1], i) + (if log[|log| - 1].event == i then 1 else 0)
  }

  function Successes(log: seq<Attempt>, i: nat): nat {
    if log == [] then 0
    else
      var last := log[|log| - 1];
      Successes(log[..|log| - 1], i) + (if last.event == i && Truthy(last.outcome) then 1 else 0)
  }

  // The error of the last attempt that did not succeed.
  function LastError(log: seq<Attempt>, i: nat): Option<Failure> {
    if log == [] then None
    else
      var last := log[|log| - 1];
      if last.event == i && !Truthy(last.outcome) then
        Some(FailureOf(last.outcome))
      else LastError(log[..|log| - 1], i)
  }

  function One(b: bool): nat { if b then 1 else 0 }

  predicate Balanced(e: Event, invocations: nat, successes: nat) {
    && invocations == e.retryCount + One(e.processed) <= MAX_RETRIES
    && successes == One(e.processed)
  }

  ghost predicate Inv(s: State) {
    forall i: nat :: BalancedAt(s, i)
  }

  predicate BalancedAt(s: State, i: nat) {
    if i < |s.events| then
      && Balanced(s.events[i], Invocations(s.log, i), Successes(s.log, i))
      && s.events[i].error == LastError(s.log, i)
    else Invocations(s.log, i) == 0 && Successes(s.log, i) == 0 && LastError(s.log, i).None?
  }

  lemma CountsAppend(log: seq<Attempt>, a: Attempt, i: nat)
    ensures Invocations(Add(log, a), i) == Invocations(log, i) + One(a.event == i)
    ensures Successes(Add(log, a), i) == Successes(log, i) + One(a.event == i && Truthy(a.outcome))
    ensures a.event != i || Truthy(a.outcome) ==> LastError(Add(log, a), i) == LastError(log, i)
  {
    AddPrefix(log, a);
  }

  lemma DeliverKeeps(s: State, i: nat, h: Handler)
    requires Inv(s) && i < |s.events| && Open(s.events[i])
    ensures Inv(Deliver(s, i, h))
  {
    var reply := h(i, |s.log|);
    forall j: nat ensures BalancedAt(Deliver(s, i, h), j) {
      assert BalancedAt(s, j);
      CountsAppend(s.log, Attempt(i, reply.outcome), j);
      AddPrefix(s.log, Attempt(i, reply.outcome));
    }
  }

  lemma EnqueueKeeps(s: State, payload: nat)
    requires Inv(s)
    ensures Inv(EnqueueOutbox(s, payload))
  {
    forall j: nat ensures BalancedAt(EnqueueOutbox(s, payload), j) { assert BalancedAt(s, j); }
  }

  // ---------- one pass ----------

  ghost predicate Due(s: State, pending: seq<nat>, k: nat) {
    && InRange(s, pending)
    && (forall m | k <= m < |pending| :: Open(s.events[pending[m]]))
    && (forall j, m | 0 <= j < m < |pending| :: pending[j] < pending[m])
  }

  lemma DueNext(s: State, pending: seq<nat>, k: nat, h: Handler)
    requires k < |pending| && Due(s, pending, k)
    ensures Due(Deliver(s, pending[k], h), pending, k + 1)
  {
  }

  // What one event goes through in a pass: a single attempt if it was due, otherwise nothing.
  predicate Advanced(before: Event, after: Event, due: bool) {
    if due then after.processed || after.retryCount == before.retryCount + 1 else after == before
  }

  lemma {:induction false} PassKeeps(s: State, pending: seq<nat>, k: nat, h: Handler)
    requires k <= |pending| && Inv(s) && Due(s, pending, k)
    ensures Inv(PassFrom(s, pending, k, h))
    decreases |pending| - k
  {
    if k < |pending| {
      DeliverKeeps(s, pending[k], h);
      DueNext(s, pending, k, h);
      PassKeeps(Deliver(s, pending[k], h), pending, k + 1, h);
    }
  }

  predicate Among(pending: seq<nat>, k: nat, i: nat) { exists m | k <= m < |pending| :: pending[m] == i }

  lemma AmongNext(pending: seq<nat>, k: nat, i: nat)
    requires k < |pending| && forall j, m | 0 <= j < m < |pending| :: pending[j] < pending[m]
    ensures Among(pending, k, i) <==> pending[k] == i || Among(pending, k + 1, i)
    ensures pending[k] == i ==> !Among(pending, k + 1, i)
  {
  }

  lemma {:induction false} PassAdvances(s: State, pending: seq<nat>, k: nat, h: Handler, i: nat)
    requires k <= |pending| && Due(s, pending, k) && i < |s.events|
    ensures var after := PassFrom(s, pending, k, h);
      |s.events| <= |after.events| && Advanced(s.events[i], after.events[i], Among(pending, k, i))
    decreases |pending| - k
  {
    if k < |pending| {
      DueNext(s, pending, k, h);
      PassAdvances(Deliver(s, pending[k], h), pending, k + 1, h, i);
      AmongNext(pending, k, i);
    }
  }

  // The attempts that `after` has beyond `before` are those of the listed events, in their order.
  ghost predicate Attempts(before: seq<Attempt>, after: seq<Attempt>, pending: seq<nat>, k: nat)
    requires k <= |pending|
  {
    && |after| == |before| + |pending| - k
    && (forall j | 0 <= j < |before| :: after[j] == before[j])
    && (forall j | |before| <= j < |after| :: after[j].event == pending[j - |before| + k])
  }

  lemma {:induction false} PassAttempts(s: State, pending: seq<nat>, k: nat, h: Handler)
    requires k <= |pending| && InRange(s, pending)
    ensures Attempts(s.log, PassFrom(s, pending, k, h).log, pending, k)
    decreases |pending| - k
  {
    if k < |pending| {
      PassAttempts(Deliver(s, pending[k], h), pending, k + 1, h);
    }
  }

  // However the others fare, a pass attempts exactly the events that were pending, once each and in
  // order; none that the handler enqueues meanwhile.
  lemma FailuresBlockNothing(s: State, h: Handler)
    ensures Attempts(s.log, ProcessOutbox(s, h).log, PendingIn(s.events), 0)
  {
    PendingIsDue(s);
    PassAttempts(s, PendingIn(s.events), 0, h);
  }

  // A pass hands the handler, in order, exactly the events that are not processed and have failed less
  // than five times, and logs what it answered.
  lemma {:induction false} PassExactly(s: State, h: Handler, i: nat)
    requires i < |s.events|
    ensures var log, n := ProcessOutbox(s, h).log, |s.log|;
      && n <= |log|
      && ((exists j | n <= j < |log| :: log[j].event == i) <==> !s.events[i].processed && s.events[i].retryCount < 5)
      && (forall j | 0 <= j < n :: log[j] == s.log[j])
      && (forall j, k | n <= j < k < |log| :: log[j].event < log[k].event)
      && (forall j | n <= j < |log| :: log[j].outcome == h(log[j].event, j).outcome)
  {
    FailuresBlockNothing(s, h);
    PassAnswers(s, PendingIn(s.events), 0, h);
    PendingIsDue(s);
    OpenIsListed(s.events, |s.events|, i);
    AttemptedIff(s.log, ProcessOutbox(s, h).log, PendingIn(s.events), i);
  }

  lemma {:induction false} AttemptedIff(before: seq<Attempt>, after: seq<Attempt>, pending: seq<nat>, i: nat)
    requires Attempts(before, after, pending, 0) && forall j, k | 0 <= j < k < |pending| :: pending[j] < pending[k]
    ensures (exists j | |before| <= j < |after| :: after[j].event == i) <==> Among(pending, 0, i)
    ensures forall j, k | |before| <= j < k < |after| :: after[j].event < after[k].event
  {
    var n := |before|;
    if m :| 0 <= m < |pending| && pending[m] == i { assert after[n + m].event == i; }
    if j :| n <= j < |after| && after[j].event == i { assert pending[j - n] == i; }
  }

  lemma {:induction false} PassAnswers(s: State, pending: seq<nat>, k: nat, h: Handler)
    requires k <= |pending| && InRange(s, pending)
    ensures var log := PassFrom(s, pending, k, h).log;
      |s.log| <= |log| && forall j | |s.log| <= j < |log| :: log[j].outcome == h(log[j].event, j).outcome
    decreases |pending| - k
  {
    PassAttempts(s, pending, k, h);
    if k < |pending| {
      var next := Deliver(s, pending[k], h);
      PassAttempts(next, pending, k + 1, h);
      PassAnswers(next, pending, k + 1, h);
      assert next.log[|s.log|] == Attempt(pending[k], h(pending[k], |s.log|).outcome);
    }
  }

  // ---------- over every run ----------

  datatype Step = Enqueue(payload: nat) | Process(handler: Handler)

  function Next(s: State, step: Step): State {
    match step
    case Enqueue(payload) => EnqueueOutbox(s, payload)
    case Process(handler) => ProcessOutbox(s, handler)
  }

  // The state after the first `n` steps.
  function After(steps: seq<Step>, n: nat): State
    requires n <= |steps|
  {
    if n == 0 then State([], []) else Next(After(steps, n - 1), steps[n - 1])
  }

  lemma PendingIsDue(s: State)
    ensures Due(s, PendingIn(s.events), 0)
  {
  }

  lemma {:induction false} OpenIsListed(events: seq<Event>, n: nat, i: nat)
    requires n <= |events|
    ensures Among(OpenBelow(events, n), 0, i) <==> i < n && Open(events[i])
  {
    if n > 0 {
      OpenIsListed(events, n - 1, i);
      if Open(events[n - 1]) {
        AmongAdd(OpenBelow(events, n - 1), n - 1, i);
      }
    }
  }

  lemma AmongAdd(pending: seq<nat>, x: nat, i: nat)
    ensures Among(Add(pending, x), 0, i) <==> Among(pending, 0, i) || i == x
  {
    var more := Add(pending, x);
    if Among(pending, 0, i) {
      var m :| 0 <= m < |pending| && pending[m] == i;
      assert more[m] == i;
    }
    assert more[|pending|] == x;
  }

  lemma {:induction false} RunKeeps(steps: seq<Step>, n: nat)
    requires n <= |steps|
    ensures Inv(After(steps, n))
  {
    if n > 0 {
      var before := After(steps, n - 1);
      RunKeeps(steps, n - 1);
      match steps[n - 1] {
        case Enqueue(payload) => EnqueueKeeps(before, payload);
        case Process(handler) =>
          PendingIsDue(before);
          PassKeeps(before, PendingIn(before.events), 0, handler);
      }
    }
  }

  // The handler sees an event as often as the event counts retries, and once more if it was
  // processed; five times at most, and at most once with success. The error it carries is that of
  // its last failure.
  lemma AttemptsAreConserved(steps: seq<Step>, i: nat)
    requires i < |After(steps, |steps|).events|
    ensures var s := After(steps, |steps|); var e := s.events[i];
      && Invocations(s.log, i) == e.retryCount + One(e.processed) <= 5
      && Successes(s.log, i) == One(e.processed)
      && e.error == LastError(s.log, i)
  {
    RunKeeps(steps, |steps|);
    assert BalancedAt(After(steps, |steps|), i);
  }

  // How many passes there are from step `m` to step `n`.
  function Passes(steps: seq<Step>, m: nat, n: nat): nat
    requires m <= n <= |steps|
    decreases n
  {
    if n == m then 0 else Passes(steps, m, n - 1) + One(steps[n - 1].Process?)
  }

  lemma {:induction false} PassesCount(steps: seq<Step>, m: nat, n: nat)
    requires m <= n <= |steps|
    ensures Passes(steps, m, n) == |set k | m <= k < n && steps[k].Process?|
    decreases n
  {
    if m < n {
      PassesCount(steps, m, n - 1);
      var before, after := set k | m <= k < n - 1 && steps[k].Process?, set k | m <= k < n && steps[k].Process?;
      assert after == if steps[n - 1].Process? then before + {n - 1} else before;
    }
  }

  lemma {:induction false} AfterExactly(steps: seq<Step>, n: nat)
    requires n < |steps|
    ensures After(steps, 0) == State([], [])
    ensures steps[n].Enqueue? ==> After(steps, n + 1) == EnqueueOutbox(After(steps, n), steps[n].payload)
    ensures steps[n].Process? ==> After(steps, n + 1) == ProcessOutbox(After(steps, n), steps[n].handler)
  {
  }

  lemma StepTries(s: State, step: Step, i: nat)
    requires i < |s.events|
    ensures var after := Next(s, step);
      && i < |after.events|
      && (Open(after.events[i]) ==>
            Open(s.events[i]) && after.events[i].retryCount >= s.events[i].retryCount + One(step.Process?))
  {
    match step {
      case Enqueue(payload) =>
      case Process(handler) =>
        PendingIsDue(s);
        OpenIsListed(s.events, |s.events|, i);
        PassAdvances(s, PendingIn(s.events), 0, handler, i);
    }
  }

  lemma {:induction false} OpenHasTried(steps: seq<Step>, m: nat, n: nat, i: nat)
    requires m <= n <= |steps| && i < |After(steps, m).events|
    ensures i < |After(steps, n).events|
    ensures Open(After(steps, n).events[i]) ==> After(steps, n).events[i].retryCount >= Passes(steps, m, n)
    decreases n
  {
    if m < n {
      OpenHasTried(steps, m, n - 1, i);
      StepTries(After(steps, n - 1), steps[n - 1], i);
    }
  }

  // After five passes an event enqueued before them is settled: processed, or given up.
  lemma FivePassesSettle(steps: seq<Step>, m: nat, i: nat)
    requires m <= |steps| && i < |After(steps, m).events| && Passes(steps, m, |steps|) >= 5
    ensures var s := After(steps, |steps|);
      i < |s.events| && !Open(s.events[i]) && (s.events[i].processed || s.events[i].retryCount == 5)
  {
    OpenHasTried(steps, m, |steps|, i);
    AttemptsAreConserved(steps, i);
  }

  lemma {:induction false} PassSkips(s: State, pending: seq<nat>, k: nat, h: Handler, i: nat)
    requires k <= |pending| && Due(s, pending, k) && !Among(pending, k, i)
    ensures Invocations(PassFrom(s, pending, k, h).log, i) == Invocations(s.log, i)
    decreases |pending| - k
  {
    if k < |pending| {
      AmongNext(pending, k, i);
      CountsAppend(s.log, Attempt(pending[k], h(pending[k], |s.log|).outcome), i);
      DueNext(s, pending, k, h);
      PassSkips(Deliver(s, pending[k], h), pending, k + 1, h, i);
    }
  }

  lemma StepSkips(s: State, step: Step, i: nat)
    requires i < |s.events| && !Open(s.events[i])
    ensures var after := Next(s, step);
      i < |after.events| && after.events[i] == s.events[i] && Invocations(after.log, i) == Invocations(s.log, i)
  {
    match step {
      case Enqueue(payload) =>
      case Process(handler) =>
        PendingIsDue(s);
        OpenIsListed(s.events, |s.events|, i);
        PassAdvances(s, PendingIn(s.events), 0, handler, i);
        PassSkips(s, PendingIn(s.events), 0, handler, i);
    }
  }

  // A settled event stays as it is and is never attempted again, however the run goes on.
  lemma {:induction false} SettledStays(steps: seq<Step>, m: nat, n: nat, i: nat)
    requires m <= n <= |steps| && i < |After(steps, m).events| && !Open(After(steps, m).events[i])
    ensures i < |After(steps, n).events| && After(steps, n).events[i] == After(steps, m).events[i]
    ensures Invocations(After(steps, n).log, i) == Invocations(After(steps, m).log, i)
    decreases n
  {
    if m < n {
      SettledStays(steps, m, n - 1, i);
      StepSkips(After(steps, n - 1), steps[n - 1], i);
    }
  }

  // No event is attempted again once the handler has returned a true value for it.
  ghost predicate Final(log: seq<Attempt>) {
    forall k: nat, j: nat | k < j < |log| :: FinalAt(log, k, j)
  }

  predicate FinalAt(log: seq<Attempt>, k: nat, j: nat)
    requires k < j < |log|
  {
    Truthy(log[k].outcome) ==> log[j].event != log[k].event
  }

  lemma {:induction false} SuccessIsCounted(log: seq<Attempt>, k: nat)
    requires k < |log| && Truthy(log[k].outcome)
    ensures Successes(log, log[k].event) >= 1
  {
    if k < |log| - 1 {
      SuccessIsCounted(log[..|log| - 1], k);
    }
  }

  lemma DeliverFinal(s: State, i: nat, h: Handler)
    requires Inv(s) && Final(s.log) && i < |s.events| && Open(s.events[i])
    ensures Final(Deliver(s, i, h).log)
  {
    var log := Deliver(s, i, h).log;
    assert BalancedAt(s, i);
    forall k: nat, j: nat | k < j < |log| ensures FinalAt(log, k, j) {
      if j < |s.log| {
        assert FinalAt(s.log, k, j);
      } else if Truthy(log[k].outcome) {
        SuccessIsCounted(s.log, k);
      }
    }
  }

  lemma {:induction false} PassFinal(s: State, pending: seq<nat>, k: nat, h: Handler)
    requires k <= |pending| && Inv(s) && Final(s.log) && Due(s, pending, k)
    ensures Final(PassFrom(s, pending, k, h).log)
    decreases |pending| - k
  {
    if k < |pending| {
      DeliverKeeps(s, pending[k], h);
      DeliverFinal(s, pending[k], h);
      DueNext(s, pending, k, h);
      PassFinal(Deliver(s, pending[k], h), pending, k + 1, h);
    }
  }

  lemma {:induction false} RunFinal(steps: seq<Step>, n: nat)
    requires n <= |steps|
    ensures Final(After(steps, n).log)
  {
    if n > 0 {
      var before := After(steps, n - 1);
      RunFinal(steps, n - 1);
      RunKeeps(steps, n - 1);
      if steps[n - 1].Process? {
        PendingIsDue(before);
        PassFinal(before, PendingIn(before.events), 0, steps[n - 1].handler);
      }
    }
  }

  // A handler that returns a promise is taken at its word before it has spoken: over every run the
  // event counts as processed from then on, and no pass ever attempts it again.
  lemma PromisesCountAsDelivered(steps: seq<Step>, k: nat)
    requires k < |After(steps, |steps|).log| && After(steps, |steps|).log[k].outcome.Promised?
    ensures var s := After(steps, |steps|); var i := s.log[k].event;
      && i < |s.events| && s.events[i].processed
      && forall j: nat | k < j < |s.log| :: s.log[j].event != i
  {
    var s := After(steps, |steps|);
    RunKeeps(steps, |steps|);
    RunFinal(steps, |steps|);
    SuccessIsCounted(s.log, k);
    assert BalancedAt(s, s.log[k].event);
    forall j: nat | k < j < |s.log| ensures s.log[j].event != s.log[k].event { assert FinalAt(s.log, k, j); }
  }

  // ---------- the object ----------

  class OutboxQueue {
    var events: seq<Event>
    var log: seq<Attempt>

    constructor ()
      ensures Contents() == State([], [])
    {
      events, log := [], [];
    }

    function Contents(): State
      reads this
    {
      State(events, log)
    }

    method Enqueue(payload: nat) returns (event: Event)
      modifies this
      ensures Contents() == EnqueueOutbox(old(Contents()), payload) && event == Fresh(payload)
    {
      event := Event(payload, false, 0, None);
      events := Add(events, event);
    }

    // One round of the loop: the handler runs, then the event is marked.
    method Handle(i: nat, handler: Handler)
      requires i < |events|
      modifies this
      ensures Contents() == Deliver(old(Contents()), i, handler)
    {
      var reply := handler(i, |log|);
      for k := 0 to |reply.enqueued|
        invariant log == old(log) && events == Extended(old(events), reply.enqueued[..k])
      {
        var event := Enqueue(reply.enqueued[k]);
      }
      assert reply.enqueued[..|reply.enqueued|] == reply.enqueued;
      log := Add(log, Attempt(i, reply.outcome));
      var e := events[i];
      match reply.outcome {
        case Returned(ok) =>
          if ok {
            e := e.(processed := true);
          } else {
            e := e.(retryCount := e.retryCount + 1, error := Some(Reported));
          }
        case Promised => e := e.(processed := true);
        case Threw(message) => e := e.(retryCount := e.retryCount + 1, error := Some(Exception(message)));
      }
      events := events[i := e];
    }

    method Process(handler: Handler)
      modifies this
      ensures Contents() == ProcessOutbox(old(Contents()), handler)
    {
      var pending := PendingIn(events);
      PendingIsDue(Contents());
      for k := 0 to |pending|
        invariant InRange(Contents(), pending)
        invariant PassFrom(Contents(), pending, k, handler) == ProcessOutbox(old(Contents()), handler)
      {
        Handle(pending[k], handler);
      }
    }
  }
}
