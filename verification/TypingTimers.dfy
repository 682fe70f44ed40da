/**
 The typing indicator of server/realtime.ts: per key of target and user, a timer that takes the
 indicator back 3.5 s after the last start. The registry `typingTimeouts` holds the handle of a
 timer; whether the timer still runs is the runtime's business, and kept apart from it here.
 */
module TypingTimers {
  import opened Wrappers

  type Key = nat
  type Group = nat
  type Handle = nat

  const LINGER := 3500

  // What was broadcast to a group, for a key.
  datatype Emit = Emit(key: Key, group: Group, started: bool, at: int)

  // A running timer, with what its callback closes over.
  datatype Alarm = Alarm(key: Key, group: Group, due: int)

  datatype State = State(timeouts: map<Key, Handle>, alarms: map<Handle, Alarm>, next: Handle, log: seq<Emit>)

  const Start := State(map[], map[], 0, [])

  // A call of handleTyping, or a timer that runs out.
  datatype Step = Typing(key: Key, group: Group, isTyping: bool, now: int) | Elapse(handle: Handle, now: int)

  // `clearTimeout` and the removal of the handle.
  function Cleared(s: State, key: Key): State {
    if key in s.timeouts then s.(alarms := s.alarms - {s.timeouts[key]}, timeouts := s.timeouts - {key}) else s
  }

  function Handled(s: State, key: Key, group: Group, isTyping: bool, now: int): State {
    var c := Cleared(s, key);
    if isTyping then
      State(c.timeouts[key := c.next], c.alarms[c.next := Alarm(key, group, now + LINGER)], c.next + 1,
            Add(c.log, Emit(key, group, true, now)))
    else c.(log := Add(c.log, Emit(key, group, false, now)))
  }

  // The callback of a running timer.
  function TimedOut(s: State, handle: Handle, now: int): State {
    if handle !in s.alarms then s
    else
      var a := s.alarms[handle];
      s.(alarms := s.alarms - {handle}, timeouts := s.timeouts - {a.key}, log := Add(s.log, Emit(a.key, a.group, false, now)))
  }

  function Next(s: State, step: Step): State {
    match step
    case Typing(key, group, isTyping, now) => Handled(s, key, group, isTyping, now)
    case Elapse(handle, now) => TimedOut(s, handle, now)
  }

  function Run(steps: seq<Step>): State {
    if steps == [] then Start else Next(Run(steps[..|steps| - 1]), steps[|steps| - 1])
  }

  // ---------- handles and timers ----------

  ghost predicate Holds(s: State, key: Key, handle: Handle) { key in s.timeouts && s.timeouts[key] == handle }

  // The registry holds exactly the handles of the running timers, each under the key of its timer.
  ghost predicate Registered(s: State) {
    && (forall h | h in s.alarms :: h < s.next && Holds(s, s.alarms[h].key, h))
    && (forall key, h | Holds(s, key, h) :: h in s.alarms && s.alarms[h].key == key)
  }

  lemma ClearedRegistered(s: State, key: Key)
    requires Registered(s)
    ensures Registered(Cleared(s, key))
    ensures forall h | h in Cleared(s, key).alarms :: s.alarms[h].key != key
  {
    var c := Cleared(s, key);
    assert key in s.timeouts ==> Holds(s, key, s.timeouts[key]);
    forall h | h in c.alarms ensures s.alarms[h].key != key && Holds(c, c.alarms[h].key, h) {
      assert Holds(s, s.alarms[h].key, h);
    }
    forall k, h | Holds(c, k, h) ensures h in c.alarms && c.alarms[h].key == k {
      assert Holds(s, k, h);
    }
  }

  lemma NextRegistered(s: State, step: Step)
    requires Registered(s)
    ensures Registered(Next(s, step))
  {
    var r := Next(s, step);
    match step {
      case Typing(key, group, isTyping, now) =>
        ClearedRegistered(s, key);
        var c := Cleared(s, key);
        forall h | h in r.alarms ensures h < r.next && Holds(r, r.alarms[h].key, h) {
          if h in c.alarms { assert Holds(c, c.alarms[h].key, h); }
        }
        forall k, h | Holds(r, k, h) ensures h in r.alarms && r.alarms[h].key == k {
          assert k != key || !isTyping ==> Holds(c, k, h);
        }
      case Elapse(handle, now) =>
        forall h | h in r.alarms ensures h < r.next && Holds(r, r.alarms[h].key, h) {
          assert Holds(s, s.alarms[h].key, h);
          if handle in s.alarms { assert Holds(s, s.alarms[handle].key, handle); }
        }
        forall k, h | Holds(r, k, h) ensures h in r.alarms && r.alarms[h].key == k { assert Holds(s, k, h); }
    }
  }

  lemma {:induction false} RunRegistered(steps: seq<Step>)
    ensures Registered(Run(steps))
  {
    if steps != [] {
      RunRegistered(steps[..|steps| - 1]);
      NextRegistered(Run(steps[..|steps| - 1]), steps[|steps| - 1]);
    }
  }

  // In every run: at most one timer runs for a key, and a timer whose handle was dropped does not run.
  lemma OneTimerPerKey(steps: seq<Step>, h: Handle, other: Handle)
    requires var s := Run(steps); h in s.alarms && other in s.alarms && s.alarms[h].key == s.alarms[other].key
    ensures h == other && Holds(Run(steps), Run(steps).alarms[h].key, h)
  {
    RunRegistered(steps);
    var s := Run(steps);
    assert Holds(s, s.alarms[h].key, h) && Holds(s, s.alarms[other].key, other);
  }

  // ---------- what each call does ----------

  // Every call emits one event to its own group, and a timer that elapses takes back the start that set it.
  lemma {:induction false} EmitsExactly(s: State, step: Step)
    ensures Next(s, step).log == match step
      case Typing(key, group, isTyping, now) => Add(s.log, Emit(key, group, isTyping, now))
      case Elapse(h, now) => if h in s.alarms then Add(s.log, Emit(s.alarms[h].key, s.alarms[h].group, false, now)) else s.log
  {
  }

  // A call stops the timer of its key, and a start sets a new one for 3.5 s later; other keys keep theirs.
  lemma {:induction false} TimersExactly(s: State, key: Key, group: Group, isTyping: bool, now: int, other: Key)
    requires Registered(s)
    ensures var r := Next(s, Typing(key, group, isTyping, now));
      && AlarmOf(r, key) == (if isTyping then Some(Alarm(key, group, now + 3500)) else None)
      && (other != key ==> AlarmOf(r, other) == AlarmOf(s, other))
  {
    if other in s.timeouts { assert Holds(s, other, s.timeouts[other]); }
    if key in s.timeouts { assert Holds(s, key, s.timeouts[key]); }
  }

  // ---------- timers and what was emitted ----------

  // What the log last says of a key.
  function Last(log: seq<Emit>, key: Key): Option<Emit> {
    if log == [] then None
    else if log[|log| - 1].key == key then Some(log[|log| - 1])
    else Last(log[..|log| - 1], key)
  }

  function AlarmOf(s: State, key: Key): Option<Alarm> {
    if key in s.timeouts && s.timeouts[key] in s.alarms then Some(s.alarms[s.timeouts[key]]) else None
  }

  // A timer runs exactly while the last word on its key is a start, and stands for that start.
  predicate Agrees(alarm: Option<Alarm>, key: Key, last: Option<Emit>) {
    if last.Some? && last.value.started then alarm == Some(Alarm(key, last.value.group, last.value.at + LINGER))
    else alarm.None?
  }

  lemma LastAppend(log: seq<Emit>, e: Emit, key: Key)
    ensures Last(Add(log, e), key) == if e.key == key then Some(e) else Last(log, key)
  {
    AddPrefix(log, e);
  }

  // What one step does to the timer of a key and to what is said of it.
  lemma TypingAlarm(s: State, step: Step, key: Key)
    requires Registered(s) && step.Typing?
    ensures AlarmOf(Next(s, step), key)
      == if step.key != key then AlarmOf(s, key)
         else if step.isTyping then Some(Alarm(key, step.group, step.now + LINGER)) else None
    ensures Next(s, step).log == Add(s.log, Emit(step.key, step.group, step.isTyping, step.now))
  {
    ClearedRegistered(s, step.key);
    assert key in s.timeouts ==> Holds(s, key, s.timeouts[key]);
    assert step.key in s.timeouts ==> Holds(s, step.key, s.timeouts[step.key]);
  }

  lemma ElapseAlarm(s: State, step: Step, key: Key)
    requires Registered(s) && step.Elapse? && step.handle in s.alarms
    ensures AlarmOf(s, s.alarms[step.handle].key) == Some(s.alarms[step.handle])
    ensures AlarmOf(Next(s, step), key) == if s.alarms[step.handle].key == key then None else AlarmOf(s, key)
    ensures Next(s, step).log == Add(s.log, Emit(s.alarms[step.handle].key, s.alarms[step.handle].group, false, step.now))
  {
    assert Holds(s, s.alarms[step.handle].key, step.handle);
    if key in s.timeouts {
      assert Holds(s, key, s.timeouts[key]);
    }
  }

  lemma {:induction false} TimersFollowTheLog(steps: seq<Step>, key: Key)
    ensures Agrees(AlarmOf(Run(steps), key), key, Last(Run(steps).log, key))
  {
    if steps != [] {
      var s, step := Run(steps[..|steps| - 1]), steps[|steps| - 1];
      TimersFollowTheLog(steps[..|steps| - 1], key);
      RunRegistered(steps[..|steps| - 1]);
      match step {
        case Typing(k, group, isTyping, now) =>
          TypingAlarm(s, step, key);
          LastAppend(s.log, Emit(k, group, isTyping, now), key);
        case Elapse(h, now) =>
          if h in s.alarms {
            ElapseAlarm(s, step, key);
            LastAppend(s.log, Emit(s.alarms[h].key, s.alarms[h].group, false, now), key);
          }
      }
    }
  }

  // Timers run out in time: by `now` none that is due still runs.
  ghost predicate Prompt(s: State, now: int) { forall h | h in s.alarms :: s.alarms[h].due > now }

  // So at any moment every key has stopped, or started less than 3.5 s ago.
  lemma NoIndicatorLingers(steps: seq<Step>, key: Key, now: int)
    requires Prompt(Run(steps), now)
    ensures var last := Last(Run(steps).log, key);
      last.Some? && last.value.started ==> now < last.value.at + LINGER
  {
    TimersFollowTheLog(steps, key);
  }

  // ---------- what a group sees ----------

  function LastIn(log: seq<Emit>, key: Key, group: Group): Option<Emit> {
    if log == [] then None
    else if log[|log| - 1].key == key && log[|log| - 1].group == group then Some(log[|log| - 1])
    else LastIn(log[..|log| - 1], key, group)
  }

  lemma LastInAppend(log: seq<Emit>, e: Emit, key: Key, group: Group)
    ensures LastIn(Add(log, e), key, group) == if e.key == key && e.group == group then Some(e) else LastIn(log, key, group)
  {
    AddPrefix(log, e);
  }

  // How a group stands with a key: nothing to take back, a start whose timer runs, or a start whose
  // timer was cleared by a call for another group under the same key.
  datatype Standing = Quiet | Started(at: int) | Abandoned(at: int)

  predicate Concerns(s: State, step: Step, key: Key) {
    match step
    case Typing(k, _, _, _) => k == key
    case Elapse(h, _) => h in s.alarms && s.alarms[h].key == key
  }

  function Moved(standing: Standing, s: State, step: Step, key: Key, group: Group): Standing {
    if !Concerns(s, step, key) then standing
    else if step.Elapse? then (if standing.Started? then Quiet else standing)
    else if step.group == group then (if step.isTyping then Started(step.now) else Quiet)
    else if standing.Started? then Abandoned(standing.at)
    else standing
  }

  function StandingOf(steps: seq<Step>, key: Key, group: Group): Standing {
    if steps == [] then Quiet
    else
      var most := steps[..|steps| - 1];
      Moved(StandingOf(most, key, group), Run(most), steps[|steps| - 1], key, group)
  }

  // What a standing says about the group's last event and the timer of the key.
  ghost predicate Stands(standing: Standing, alarm: Option<Alarm>, last: Option<Emit>, key: Key, group: Group) {
    match standing
    case Quiet => (last.Some? ==> !last.value.started) && (alarm.Some? ==> alarm.value.group != group)
    case Started(at) => last == Some(Emit(key, group, true, at)) && alarm == Some(Alarm(key, group, at + LINGER))
    case Abandoned(at) => last == Some(Emit(key, group, true, at)) && (alarm.Some? ==> alarm.value.group != group)
  }

  lemma StepStands(s: State, step: Step, standing: Standing, key: Key, group: Group)
    requires Registered(s) && Stands(standing, AlarmOf(s, key), LastIn(s.log, key, group), key, group)
    ensures var r := Next(s, step);
      Stands(Moved(standing, s, step, key, group), AlarmOf(r, key), LastIn(r.log, key, group), key, group)
  {
    match step {
      case Typing(k, g, isTyping, now) =>
        TypingAlarm(s, step, key);
        LastInAppend(s.log, Emit(k, g, isTyping, now), key, group);
      case Elapse(h, now) =>
        if h in s.alarms {
          ElapseAlarm(s, step, key);
          LastInAppend(s.log, Emit(s.alarms[h].key, s.alarms[h].group, false, now), key, group);
        }
    }
  }

  lemma {:induction false} RunStands(steps: seq<Step>, key: Key, group: Group)
    ensures Stands(StandingOf(steps, key, group), AlarmOf(Run(steps), key), LastIn(Run(steps).log, key, group), key, group)
  {
    if steps != [] {
      var most := steps[..|steps| - 1];
      RunStands(most, key, group);
      RunRegistered(most);
      StepStands(Run(most), steps[|steps| - 1], StandingOf(most, key, group), key, group);
    }
  }

  // ---------- exactly when a group is left on a start ----------

  ghost predicate Untouched(steps: seq<Step>, key: Key, lo: nat, hi: nat)
    requires hi <= |steps|
  {
    forall i: nat | lo <= i < hi :: !ConcernsAt(steps, key, i)
  }

  predicate ConcernsAt(steps: seq<Step>, key: Key, i: nat)
    requires i < |steps|
  {
    Concerns(Run(steps[..i]), steps[i], key)
  }

  ghost predicate Unheard(steps: seq<Step>, key: Key, group: Group, lo: nat)
  {
    forall i | lo <= i < |steps| :: !(steps[i].Typing? && steps[i].key == key && steps[i].group == group)
  }

  // Step `k` starts the indicator in the group, the next step that concerns the key is the call `j` for
  // another group, and no call comes back to the first.
  ghost predicate Switch(steps: seq<Step>, key: Key, group: Group, at: int, k: nat, j: nat) {
    && k < j < |steps|
    && steps[k] == Typing(key, group, true, at)
    && Untouched(steps, key, k + 1, j)
    && steps[j].Typing? && steps[j].key == key && steps[j].group != group
    && Unheard(steps, key, group, j)
  }

  ghost predicate Pending(steps: seq<Step>, key: Key, group: Group, at: int, k: nat) {
    && k < |steps|
    && steps[k] == Typing(key, group, true, at)
    && Untouched(steps, key, k + 1, |steps|)
  }

  lemma {:induction false} ConcernsMore(steps: seq<Step>, step: Step, key: Key, i: nat)
    requires i < |steps|
    ensures var all := Add(steps, step);
      ConcernsAt(all, key, i) <==> ConcernsAt(steps, key, i)
  {
    assert Add(steps, step)[..i] == steps[..i];
  }

  lemma {:induction false} UntouchedMore(steps: seq<Step>, step: Step, key: Key, lo: nat, hi: nat)
    requires hi <= |steps|
    ensures Untouched(Add(steps, step), key, lo, hi) <==> Untouched(steps, key, lo, hi)
    ensures lo <= |steps| ==> (Untouched(Add(steps, step), key, lo, |steps| + 1)
      <==> Untouched(steps, key, lo, |steps|) && !Concerns(Run(steps), step, key))
  {
    SameBelow(steps, step, key);
    if lo <= |steps| {
      AddPrefix(steps, step);
      assert ConcernsAt(Add(steps, step), key, |steps|) <==> Concerns(Run(steps), step, key);
      OneFurther(Add(steps, step), key, lo, |steps|);
    }
  }

  lemma {:induction false} SameBelow(steps: seq<Step>, step: Step, key: Key)
    ensures forall i: nat | i < |steps| :: ConcernsAt(Add(steps, step), key, i) <==> ConcernsAt(steps, key, i)
  {
    forall i: nat | i < |steps| ensures ConcernsAt(Add(steps, step), key, i) <==> ConcernsAt(steps, key, i) {
      ConcernsMore(steps, step, key, i);
    }
  }

  lemma {:induction false} OneFurther(steps: seq<Step>, key: Key, lo: nat, n: nat)
    requires lo <= n < |steps|
    ensures Untouched(steps, key, lo, n + 1) <==> Untouched(steps, key, lo, n) && !ConcernsAt(steps, key, n)
  {
  }

  lemma {:induction false} StartedIff(steps: seq<Step>, key: Key, group: Group, at: int)
    ensures StandingOf(steps, key, group) == Started(at) <==> exists k: nat :: Pending(steps, key, group, at, k)
  {
    if steps != [] {
      var n := |steps| - 1;
      var most, step := steps[..n], steps[n];
      StartedIff(most, key, group, at);
      AddBack(steps);
      if StandingOf(steps, key, group) == Started(at) {
        if Concerns(Run(most), step, key) {
          assert Pending(steps, key, group, at, n);
        } else {
          var k: nat :| Pending(most, key, group, at, k);
          UntouchedMore(most, step, key, k + 1, n);
          assert Pending(steps, key, group, at, k);
        }
      }
      if k: nat :| Pending(steps, key, group, at, k) {
        if k < n {
          UntouchedMore(most, step, key, k + 1, n);
          assert Pending(most, key, group, at, k);
        }
      }
    }
  }

  lemma SwitchMore(steps: seq<Step>, step: Step, key: Key, group: Group, at: int, k: nat, j: nat)
    requires j < |steps|
    ensures Switch(Add(steps, step), key, group, at, k, j)
      <==> Switch(steps, key, group, at, k, j) && !(step.Typing? && step.key == key && step.group == group)
  {
    if k < j { UntouchedMore(steps, step, key, k + 1, j); }
    var all := Add(steps, step);
    if Unheard(all, key, group, j) {
      assert all[|steps|] == step;
      forall i | j <= i < |steps| ensures !(steps[i].Typing? && steps[i].key == key && steps[i].group == group) {
        assert all[i] == steps[i];
      }
    }
  }

  lemma SwitchNow(steps: seq<Step>, step: Step, key: Key, group: Group, at: int, k: nat)
    ensures Switch(Add(steps, step), key, group, at, k, |steps|)
      <==> Pending(steps, key, group, at, k) && step.Typing? && step.key == key && step.group != group
  {
    if k < |steps| { UntouchedMore(steps, step, key, k + 1, |steps|); }
  }

  lemma {:induction false} AbandonedIff(steps: seq<Step>, key: Key, group: Group, at: int)
    ensures StandingOf(steps, key, group) == Abandoned(at) <==> exists k: nat, j: nat :: Switch(steps, key, group, at, k, j)
  {
    if steps != [] {
      var n := |steps| - 1;
      var most, step := steps[..n], steps[n];
      AbandonedIff(most, key, group, at);
      StartedIff(most, key, group, at);
      AddBack(steps);
      if StandingOf(steps, key, group) == Abandoned(at) {
        if StandingOf(most, key, group) == Abandoned(at) {
          var k: nat, j: nat :| Switch(most, key, group, at, k, j);
          SwitchMore(most, step, key, group, at, k, j);
          assert Switch(steps, key, group, at, k, j);
        } else {
          var k: nat :| Pending(most, key, group, at, k);
          SwitchNow(most, step, key, group, at, k);
          assert Switch(steps, key, group, at, k, n);
        }
      }
      if k: nat, j: nat :| Switch(steps, key, group, at, k, j) {
        if j < n {
          SwitchMore(most, step, key, group, at, k, j);
        } else {
          SwitchNow(most, step, key, group, at, k);
        }
      }
    }
  }

  // With timers on time, a group still shows a start after 3.5 s exactly if the next thing that
  // happened to the key after that start was a call, start or stop, for another group, and no call has
  // come back to the group since.
  lemma GroupLeftOnStartIff(steps: seq<Step>, key: Key, group: Group, now: int)
    requires Prompt(Run(steps), now)
    ensures var last := LastIn(Run(steps).log, key, group);
      (last.Some? && last.value.started && last.value.at + LINGER <= now)
      <==> exists at, k: nat, j: nat :: Switch(steps, key, group, at, k, j) && at + LINGER <= now
  {
    RunStands(steps, key, group);
    var standing := StandingOf(steps, key, group);
    if standing.Abandoned? {
      AbandonedIff(steps, key, group, standing.at);
      var k: nat, j: nat :| Switch(steps, key, group, standing.at, k, j);
      assert LastIn(Run(steps).log, key, group) == Some(Emit(key, group, true, standing.at));
    }
    forall at, k: nat, j: nat | Switch(steps, key, group, at, k, j) ensures standing == Abandoned(at) {
      AbandonedIff(steps, key, group, at);
    }
  }

  // In particular, a group that owns its key sees the end of every start in time.
  lemma GroupSeesTheStop(steps: seq<Step>, key: Key, group: Group, now: int)
    requires Prompt(Run(steps), now)
    requires forall k | 0 <= k < |steps| && steps[k].Typing? && steps[k].key == key :: steps[k].group == group
    ensures var last := LastIn(Run(steps).log, key, group);
      last.Some? && last.value.started ==> now < last.value.at + LINGER
  {
    GroupLeftOnStartIff(steps, key, group, now);
  }

  // It does happen: a channel and a conversation under one key.
  lemma SharedKeyLosesAStop(key: Key, first: Group, second: Group, now: int)
    requires first != second
    ensures var steps := [Typing(key, first, true, now), Typing(key, second, true, now), Elapse(1, now + LINGER)];
      var last := LastIn(Run(steps).log, key, first);
      Switch(steps, key, first, now, 0, 1) && Prompt(Run(steps), now + LINGER) && last.Some? && last.value.started
  {
    var steps := [Typing(key, first, true, now), Typing(key, second, true, now), Elapse(1, now + LINGER)];
    assert steps[..2] == [steps[0], steps[1]] && [steps[0], steps[1]][..1] == [steps[0]] && [steps[0]][..0] == [];
    var a, b := Alarm(key, first, now + LINGER), Alarm(key, second, now + LINGER);
    var e, f := Emit(key, first, true, now), Emit(key, second, true, now);
    assert Run([steps[0]]) == State(map[key := 0], map[0 := a], 1, Add([], e));
    assert Run([steps[0], steps[1]]) == State(map[key := 1], map[1 := b], 2, Add(Add([], e), f));
    assert Run(steps).alarms == map[];
    assert Switch(steps, key, first, now, 0, 1);
    LeftBehind(steps, key, first, now, 0, 1, now + LINGER);
  }

  lemma LeftBehind(steps: seq<Step>, key: Key, group: Group, at: int, k: nat, j: nat, now: int)
    requires Prompt(Run(steps), now) && Switch(steps, key, group, at, k, j) && at + LINGER <= now
    ensures var last := LastIn(Run(steps).log, key, group); last.Some? && last.value.started
  {
    GroupLeftOnStartIff(steps, key, group, now);
  }

  // ---------- the object ----------

  class TypingIndicators {
    var typingTimeouts: map<Key, Handle>
    // The runtime's timers, and what went out.
    var alarms: map<Handle, Alarm>
    var next: Handle
    var log: seq<Emit>

    constructor ()
      ensures Contents() == Start
    {
      typingTimeouts, alarms, next, log := map[], map[], 0, [];
    }

    function Contents(): State
      reads this
    {
      State(typingTimeouts, alarms, next, log)
    }

    method BroadcastToGroup(e: Emit)
      modifies this`log
      ensures log == Add(old(log), e)
    {
      log := Add(log, e);
    }

    method ClearTimeout(handle: Handle)
      modifies this`alarms
      ensures alarms == old(alarms) - {handle}
    {
      alarms := alarms - {handle};
    }

    method SetTimeout(alarm: Alarm) returns (handle: Handle)
      modifies this`alarms, this`next
      ensures handle == old(next) && next == old(next) + 1 && alarms == old(alarms)[handle := alarm]
    {
      handle := next;
      alarms, next := alarms[handle := alarm], next + 1;
    }

    method HandleTyping(key: Key, group: Group, isTyping: bool, now: int)
      modifies this
      ensures Contents() == Handled(old(Contents()), key, group, isTyping, now)
    {
      if key in typingTimeouts {
        ClearTimeout(typingTimeouts[key]);
        typingTimeouts := typingTimeouts - {key};
      }
      if isTyping {
        BroadcastToGroup(Emit(key, group, true, now));
        var handle := SetTimeout(Alarm(key, group, now + LINGER));
        typingTimeouts := typingTimeouts[key := handle];
      } else {
        BroadcastToGroup(Emit(key, group, false, now));
      }
    }

    // The callback of a running timer.
    method TimeOut(handle: Handle, now: int)
      requires handle in alarms
      modifies this
      ensures Contents() == TimedOut(old(Contents()), handle, now)
    {
      var alarm := alarms[handle];
      alarms := alarms - {handle};
      typingTimeouts := typingTimeouts - {alarm.key};
      BroadcastToGroup(Emit(alarm.key, alarm.group, false, now));
    }
  }
}
