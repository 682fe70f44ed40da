/**
 The state of a one-to-one call with the objects that hold it. A handler changes the listed object in
 place and waits for the database; `persistCall` in server/db.ts then lists a new object with the
 fields of the one it was given, which others may have replaced meanwhile. CallClaims has every write
 take effect at once. Here is what of it survives, and exactly when all of it does.
 */
module CallCopies {
  import opened Wrappers
  import opened CallClaims

  // Which of its two `persistCall` the invite handler waits for, and whether it has set the timeout.
  datatype Invite = FirstWrite | Between | SecondWrite | Invited | Armed

  // `objects` holds the state field of every object, the one made by the invite handler first;
  // `listed` is the one in the list of calls, `writes` are those that handlers wait to persist. The
  // state in `rest` is not used.
  datatype Store = Store(objects: seq<CallState>, listed: Option<nat>, writes: seq<nat>, invite: Invite, rest: Call)

  const Start := Store([Ringing], None, [], FirstWrite, Unknown)

  datatype Move =
    | InviteWritten(stored: bool)                 // a write of the invite handler is over; the database may refuse it
    | InviteAgain                                 // it persists its object a second time
    | Do(step: Step)                              // a handler up to its first await, the timer, or the end of the invitation
    | Written(k: nat, stored: bool)               // another handler's write is over

  ghost predicate Exists(s: Store) {
    && |s.objects| > 0
    && (s.listed.Some? ==> s.listed.value < |s.objects|)
    && (forall k | 0 <= k < |s.writes| :: s.writes[k] < |s.objects|)
  }

  // The call as any handler finds it.
  function View(s: Store): Call
    requires Exists(s)
  {
    s.rest.(state := if s.listed.Some? then Some(s.objects[s.listed.value]) else None)
  }

  // The last lines of `persistCall`.
  function Persisted(s: Store, o: nat): Store
    requires Exists(s) && o < |s.objects|
  {
    if s.listed.None? then s.(listed := Some(o))
    else s.(objects := Add(s.objects, s.objects[o]), listed := Some(|s.objects|))
  }

  // Whether a step changes the state of a call that it finds, and then has it persisted.
  predicate Writes(c: Call, step: Step) { c.state.Some? && Moves(c, step) }

  predicate Can(s: Store, m: Move)
    requires Exists(s)
  {
    match m
    case InviteWritten(_) => s.invite.FirstWrite? || s.invite.SecondWrite?
    case InviteAgain => s.invite.Between?
    case Do(step) =>
      && !step.List? && (step.Arm? ==> s.invite.Invited?)
      && (step.Fire? ==> s.rest.timer == Scheduled) && (step.Settle? ==> s.rest.timer == InCallback)
    case Written(k, _) => k < |s.writes|
  }

  function Moved(s: Store, m: Move): (r: Store)
    requires Exists(s) && Can(s, m)
  {
    match m
    case InviteWritten(stored) =>
      (if stored then Persisted(s, 0) else s).(invite := if s.invite.FirstWrite? then Between else Invited)
    case InviteAgain => s.(invite := SecondWrite)
    case Do(step) => Stepped(s, step).(invite := if step.Arm? then Armed else s.invite)
    case Written(k, stored) =>
      (if stored then Persisted(s, s.writes[k]) else s).(writes := RemoveAt(s.writes, k))
  }

  function Stepped(s: Store, step: Step): Store
    requires Exists(s)
  {
    var c := View(s);
    var next := Next(c, step);
    if Writes(c, step) && next.state.Some? then
      s.(objects := s.objects[s.listed.value := next.state.value], writes := Add(s.writes, s.listed.value), rest := next)
    else s.(rest := next)
  }

  // The invite handler waits for one write and then for another before it sets the timeout; every
  // write that the database takes lists a new object with the state of the one it was given.
  lemma {:induction false} MovedExactly(s: Store, m: Move)
    requires Exists(s) && Can(s, m)
    ensures var r := Moved(s, m);
      && (m.InviteWritten? ==>
            && (s.invite == FirstWrite || s.invite == SecondWrite) && r.invite == (if s.invite == FirstWrite then Between else Invited)
            && r.writes == s.writes && r.rest == s.rest && Lists(s, r, 0, m.stored))
      && (m.InviteAgain? ==> s.invite == Between && r == Store(s.objects, s.listed, s.writes, SecondWrite, s.rest))
      && (m.Do? ==> !m.step.List? && (m.step.Arm? ==> s.invite == Invited) && r.invite == (if m.step.Arm? then Armed else s.invite))
      && (m.Written? ==>
            && m.k < |s.writes| && r.invite == s.invite && r.rest == s.rest && |r.writes| == |s.writes| - 1
            && Lists(s, r, s.writes[m.k], m.stored))
  {
  }

  // What can come next: any handler at any time, the end of the invitation after both its writes, the
  // timer while it is set, and every write that somebody waits for.
  lemma {:induction false} CanExactly(s: Store, stored: bool, k: nat, step: Step)
    requires Exists(s)
    ensures Can(s, InviteWritten(stored)) <==> s.invite == FirstWrite || s.invite == SecondWrite
    ensures Can(s, InviteAgain) <==> s.invite == Between
    ensures Can(s, Written(k, stored)) <==> k < |s.writes|
    ensures step != List && step != Arm && step != Fire && step != Settle ==> Can(s, Do(step))
    ensures !Can(s, Do(List)) && (Can(s, Do(Arm)) <==> s.invite == Invited)
    ensures Can(s, Do(Fire)) <==> s.rest.timer == Scheduled
    ensures Can(s, Do(Settle)) <==> s.rest.timer == InCallback
  {
  }

  // What a write of object `o` does to the list, if the database takes it.
  ghost predicate Lists(s: Store, r: Store, o: nat, stored: bool)
    requires o < |s.objects|
  {
    if !stored then r.objects == s.objects && r.listed == s.listed
    else if s.listed == None then r.objects == s.objects && r.listed == Some(o)
    else
      && |r.objects| == |s.objects| + 1 && (forall i | 0 <= i < |s.objects| :: r.objects[i] == s.objects[i])
      && r.objects[|s.objects|] == s.objects[o] && r.listed == Some(|s.objects|)
  }

  // ---------- a call that rings no more never rings again ----------

  predicate Inviting(s: Store) { s.invite.FirstWrite? || s.invite.Between? || s.invite.SecondWrite? }

  // As long as the invite handler has a write to come, its object is the listed one unless somebody
  // has changed it; and what other handlers persist does not ring.
  ghost predicate Inv(s: Store) {
    && Exists(s)
    && (s.listed.None? ==> s.objects[0] == Ringing && s.writes == [])
    && (Inviting(s) && s.objects[0] == Ringing ==> s.writes == [] && (s.listed.None? || s.listed.value == 0))
    && (s.listed.Some? && s.objects[s.listed.value] == Ringing ==>
          s.writes == [] && (Inviting(s) ==> s.objects[0] == Ringing))
    && (forall k | 0 <= k < |s.writes| :: s.objects[s.writes[k]] != Ringing)
    && (forall o | 0 <= o < |s.objects| :: s.objects[o] != Initiating)
    && (s.invite.FirstWrite? ==> s.listed.None?)
  }

  lemma StepState(c: Call, step: Step)
    requires !step.List?
    ensures c.state.None? ==> Next(c, step).state.None?
    ensures c.state.Some? && Moves(c, step) ==> Next(c, step).state.Some? && !Waiting(Next(c, step).state)
    ensures !Moves(c, step) ==> Next(c, step).state == c.state
  {
  }

  lemma SteppedKeeps(s: Store, step: Step)
    requires Inv(s) && !step.List?
    ensures Inv(Stepped(s, step)) && View(Stepped(s, step)) == Next(View(s), step)
  {
    StepState(View(s), step);
  }

  lemma DoKeeps(s: Store, step: Step)
    requires Inv(s) && Can(s, Do(step))
    ensures Inv(Moved(s, Do(step))) && View(Moved(s, Do(step))) == Next(View(s), step)
  {
    SteppedKeeps(s, step);
  }

  lemma PersistedKeeps(s: Store, o: nat)
    requires Exists(s) && o < |s.objects|
    ensures var r := Persisted(s, o);
      && Exists(r) && r.writes == s.writes && r.rest == s.rest && r.listed.Some?
      && (forall i | 0 <= i < |s.objects| :: r.objects[i] == s.objects[i])
      && View(r) == View(s).(state := Some(s.objects[o]))
  {
  }

  lemma WrittenKeeps(s: Store, k: nat, stored: bool)
    requires Inv(s) && k < |s.writes|
    ensures var r := Moved(s, Written(k, stored));
      && Inv(r) && View(r) == (if stored then View(s).(state := Some(s.objects[s.writes[k]])) else View(s))
      && (stored ==> !Waiting(View(r).state))
  {
    PersistedKeeps(s, s.writes[k]);
  }

  lemma InviteKeeps(s: Store, stored: bool)
    requires Inv(s) && Can(s, InviteWritten(stored))
    ensures var r := Moved(s, InviteWritten(stored));
      Inv(r) && View(r) == (if stored then View(s).(state := Some(s.objects[0])) else View(s))
  {
    PersistedKeeps(s, 0);
  }

  lemma MoveKeeps(s: Store, m: Move)
    requires Inv(s) && Can(s, m)
    ensures Inv(Moved(s, m))
  {
    match m
    case InviteWritten(stored) => InviteKeeps(s, stored);
    case InviteAgain =>
    case Do(step) => DoKeeps(s, step);
    case Written(k, stored) => WrittenKeeps(s, k, stored);
  }

  // ---------- runs ----------

  ghost predicate MoveAt(trace: seq<Store>, moves: seq<Move>, n: nat)
    requires |trace| == |moves| + 1 && n < |moves|
  {
    Exists(trace[n]) && Can(trace[n], moves[n]) && trace[n + 1] == Moved(trace[n], moves[n])
  }

  ghost predicate IsRun(trace: seq<Store>, moves: seq<Move>) {
    |trace| == |moves| + 1 && trace[0] == Start && forall n: nat | n < |moves| :: MoveAt(trace, moves, n)
  }

  lemma {:induction false} RunKeeps(trace: seq<Store>, moves: seq<Move>, n: nat)
    requires IsRun(trace, moves) && n < |trace|
    ensures Inv(trace[n])
  {
    if n > 0 {
      RunKeeps(trace, moves, n - 1);
      assert MoveAt(trace, moves, n - 1);
      MoveKeeps(trace[n - 1], moves[n - 1]);
    }
  }

  // Once a listed call has stopped ringing, no write brings the ringing back.
  lemma {:induction false} NeverRingsAgain(trace: seq<Store>, moves: seq<Move>, i: nat, n: nat)
    requires IsRun(trace, moves) && i <= n < |trace| && Exists(trace[i])
    requires View(trace[i]).state.Some? && !Waiting(View(trace[i]).state)
    ensures Exists(trace[n]) && View(trace[n]).state.Some? && !Waiting(View(trace[n]).state)
    decreases n
  {
    if i < n {
      NeverRingsAgain(trace, moves, i, n - 1);
      RunKeeps(trace, moves, n - 1);
      RunKeeps(trace, moves, n);
      assert MoveAt(trace, moves, n - 1);
      StaysQuiet(trace[n - 1], moves[n - 1]);
    }
  }

  lemma StaysQuiet(s: Store, m: Move)
    requires Inv(s) && Can(s, m) && View(s).state.Some? && !Waiting(View(s).state)
    ensures Inv(Moved(s, m)) && View(Moved(s, m)).state.Some? && !Waiting(View(Moved(s, m)).state)
  {
    MoveKeeps(s, m);
    match m
    case InviteWritten(stored) => InviteKeeps(s, stored);
    case InviteAgain =>
    case Do(step) =>
      DoKeeps(s, step);
      StepState(View(s), step);
    case Written(k, stored) => WrittenKeeps(s, k, stored);
  }

  // So the timeout leaves an answered call alone, whatever writes are late: the callback that starts
  // after an acceptance of the listed call changes nothing of its state.
  lemma TimeoutSparesAnsweredCopies(trace: seq<Store>, moves: seq<Move>, i: nat, j: nat)
    requires IsRun(trace, moves) && i < j < |moves| && Exists(trace[i]) && Exists(trace[j]) && Exists(trace[j + 1])
    requires moves[i].Do? && moves[j] == Do(Fire) && View(trace[i]).state.Some?
    requires Processed(View(trace[i]), moves[i].step) && moves[i].step.accepted
    ensures View(trace[j + 1]).state == View(trace[j]).state
  {
    RunKeeps(trace, moves, i);
    RunKeeps(trace, moves, j);
    assert MoveAt(trace, moves, i) && MoveAt(trace, moves, j);
    DoKeeps(trace[i], moves[i].step);
    NeverRingsAgain(trace, moves, i + 1, j);
    DoKeeps(trace[j], Fire);
  }

  // ---------- the writes taken at once ----------

  // What a move is when writes take effect at once: a step, or the listing, or nothing.
  function StepOf(s: Store, m: Move): Option<Step> {
    match m
    case InviteWritten(stored) => if stored && s.listed.None? then Some(List) else None
    case Do(step) => Some(step)
    case _ => None
  }

  function StepsOf(trace: seq<Store>, moves: seq<Move>, n: nat): seq<Step>
    requires n <= |moves| && n <= |trace|
  {
    if n == 0 then []
    else
      var before, step := StepsOf(trace, moves, n - 1), StepOf(trace[n - 1], moves[n - 1]);
      if step.Some? then Add(before, step.value) else before
  }

  // The same claim, timeout and registry, and both ring or neither does.
  predicate Alike(a: Call, b: Call) {
    && a.claim == b.claim && a.entry == b.entry && a.timer == b.timer
    && (a.state.Some? <==> b.state.Some?) && (Waiting(a.state) <==> Waiting(b.state))
  }

  lemma {:induction false} AfterAdd(steps: seq<Step>, step: Step, n: nat)
    requires n <= |steps|
    ensures After(Add(steps, step), n) == After(steps, n)
  {
    if n > 0 { AfterAdd(steps, step, n - 1); }
  }

  lemma AfterMore(steps: seq<Step>, step: Step)
    ensures After(Add(steps, step), |steps| + 1) == Next(After(steps, |steps|), step)
  {
    AfterAdd(steps, step, |steps|);
  }

  lemma PossibleMore(steps: seq<Step>, step: Step)
    requires Possible(steps)
    requires step.List? ==> List !in steps && Arm !in steps
    requires step.Arm? ==> Arm !in steps
    requires step.Fire? ==> After(steps, |steps|).timer == Scheduled
    requires step.Settle? ==> After(steps, |steps|).timer == InCallback
    ensures Possible(Add(steps, step))
  {
    var more := Add(steps, step);
    forall n: nat | n < |more| ensures PossibleAt(more, n) {
      AfterAdd(steps, step, n);
      if n < |steps| {
        assert PossibleAt(steps, n);
        assert forall x :: Earlier(more, x, n) <==> Earlier(steps, x, n);
      }
    }
  }

  // Listed exactly after the listing, armed exactly after the arming.
  predicate Marked(s: Store, steps: seq<Step>) {
    && (List in steps <==> s.listed.Some?) && (Arm in steps <==> s.invite.Armed?)
  }

  lemma SameStep(a: Call, b: Call, step: Step)
    requires Alike(a, b) && !step.List?
    ensures Alike(Next(a, step), Next(b, step))
    ensures a.state == b.state ==> Next(a, step).state == Next(b, step).state
    ensures Next(a, step).state.Some? <==> a.state.Some?
  {
  }

  lemma MoveAlike(s: Store, m: Move, b: Call)
    requires Inv(s) && Can(s, m) && Alike(View(s), b)
    ensures var step := StepOf(s, m);
      Inv(Moved(s, m)) && Alike(View(Moved(s, m)), if step.Some? then Next(b, step.value) else b)
  {
    MoveKeeps(s, m);
    match m
    case InviteWritten(stored) => InviteKeeps(s, stored);
    case InviteAgain =>
    case Do(step) =>
      DoKeeps(s, step);
      SameStep(View(s), b, step);
    case Written(k, stored) =>
      WrittenKeeps(s, k, stored);
  }

  lemma MarkedMore(s: Store, m: Move, steps: seq<Step>)
    requires Inv(s) && Can(s, m) && Marked(s, steps)
    ensures var step := StepOf(s, m);
      Marked(Moved(s, m), if step.Some? then Add(steps, step.value) else steps)
  {
    var step := StepOf(s, m);
    if step.Some? { AddHas(steps, step.value); }
  }

  // Late writes change nothing but which of the states after the ringing is seen: claims, timeouts and
  // whether the call rings are those of the same steps with every write taking effect at once.
  lemma {:induction false} RunAlike(trace: seq<Store>, moves: seq<Move>, n: nat)
    requires IsRun(trace, moves) && n <= |moves|
    ensures var steps := StepsOf(trace, moves, n);
      && Inv(trace[n]) && Possible(steps) && Marked(trace[n], steps)
      && Alike(View(trace[n]), After(steps, |steps|))
  {
    if n > 0 {
      RunAlike(trace, moves, n - 1);
      assert MoveAt(trace, moves, n - 1);
      OneMoreAlike(trace[n - 1], moves[n - 1], StepsOf(trace, moves, n - 1));
    }
  }

  lemma OneMoreAlike(s: Store, m: Move, steps: seq<Step>)
    requires Inv(s) && Can(s, m) && Possible(steps) && Marked(s, steps) && Alike(View(s), After(steps, |steps|))
    ensures var step := StepOf(s, m); var more := if step.Some? then Add(steps, step.value) else steps;
      Inv(Moved(s, m)) && Possible(more) && Marked(Moved(s, m), more) && Alike(View(Moved(s, m)), After(more, |more|))
  {
    var step := StepOf(s, m);
    MoveAlike(s, m, After(steps, |steps|));
    MarkedMore(s, m, steps);
    if step.Some? {
      AfterMore(steps, step.value);
      PossibleMore(steps, step.value);
    }
  }

  // ---------- when the whole state is the same ----------

  ghost predicate Agrees(trace: seq<Store>, moves: seq<Move>, n: nat)
    requires n <= |moves| && |trace| == |moves| + 1
  {
    var steps := StepsOf(trace, moves, n);
    Exists(trace[n]) && View(trace[n]).state == After(steps, |steps|).state
  }

  // A write that is stored over a listed object leaves the state that it has.
  predicate Timely(s: Store, m: Move)
    requires Exists(s)
  {
    match m
    case InviteWritten(stored) => stored && s.listed.Some? ==> s.objects[0] == s.objects[s.listed.value]
    case Written(k, stored) =>
      stored && s.listed.Some? && k < |s.writes| ==> s.objects[s.writes[k]] == s.objects[s.listed.value]
    case _ => true
  }

  ghost predicate TimelyAt(trace: seq<Store>, moves: seq<Move>, n: nat)
    requires n < |moves| && |trace| == |moves| + 1
  {
    Exists(trace[n]) && Timely(trace[n], moves[n])
  }

  lemma MoveAgreesIff(s: Store, m: Move, b: Call)
    requires Inv(s) && Can(s, m) && Alike(View(s), b) && View(s).state == b.state
    ensures var step := StepOf(s, m);
      Inv(Moved(s, m)) && (View(Moved(s, m)).state == (if step.Some? then Next(b, step.value) else b).state <==> Timely(s, m))
  {
    MoveKeeps(s, m);
    match m
    case InviteWritten(stored) => InviteKeeps(s, stored);
    case InviteAgain =>
    case Do(step) =>
      DoKeeps(s, step);
      SameStep(View(s), b, step);
    case Written(k, stored) => WrittenKeeps(s, k, stored);
  }

  lemma NextAgreesIff(trace: seq<Store>, moves: seq<Move>, n: nat)
    requires IsRun(trace, moves) && n < |moves| && Agrees(trace, moves, n)
    ensures Agrees(trace, moves, n + 1) <==> TimelyAt(trace, moves, n)
  {
    RunAlike(trace, moves, n);
    assert MoveAt(trace, moves, n);
    var steps := StepsOf(trace, moves, n);
    MoveAgreesIff(trace[n], moves[n], After(steps, |steps|));
    var step := StepOf(trace[n], moves[n]);
    if step.Some? { AfterMore(steps, step.value); }
  }

  lemma {:induction false} AgreesSoFar(trace: seq<Store>, moves: seq<Move>, n: nat)
    requires IsRun(trace, moves) && n <= |moves| && forall k: nat | k < |moves| :: TimelyAt(trace, moves, k)
    ensures Agrees(trace, moves, n)
  {
    if n > 0 {
      AgreesSoFar(trace, moves, n - 1);
      NextAgreesIff(trace, moves, n - 1);
    }
  }

  // The state of the call is at every moment the one that its steps give it exactly if no late write
  // is stored over a listed object in another state.
  lemma StatesAgreeIff(trace: seq<Store>, moves: seq<Move>)
    requires IsRun(trace, moves)
    ensures (forall n: nat | n <= |moves| :: Agrees(trace, moves, n)) <==> forall k: nat | k < |moves| :: TimelyAt(trace, moves, k)
  {
    if forall k: nat | k < |moves| :: TimelyAt(trace, moves, k) {
      forall n: nat | n <= |moves| ensures Agrees(trace, moves, n) { AgreesSoFar(trace, moves, n); }
    }
    if forall n: nat | n <= |moves| :: Agrees(trace, moves, n) {
      forall k: nat | k < |moves| ensures TimelyAt(trace, moves, k) {
        assert Agrees(trace, moves, k) && Agrees(trace, moves, k + 1);
        NextAgreesIff(trace, moves, k);
      }
    }
  }

  ghost predicate EndedBySome(steps: seq<Step>) { exists k: nat :: EndedLast(steps, k, |steps|) }

  // Then, and only as far as then, a call has ended exactly if the last step that wrote its state ended it.
  lemma EndedIffTimely(trace: seq<Store>, moves: seq<Move>)
    requires IsRun(trace, moves) && forall k: nat | k < |moves| :: TimelyAt(trace, moves, k)
    ensures var steps := StepsOf(trace, moves, |moves|);
      Exists(trace[|moves|])
      && (View(trace[|moves|]).state == Some(Ended) <==> EndedBySome(steps))
  {
    var steps := StepsOf(trace, moves, |moves|);
    AgreesSoFar(trace, moves, |moves|);
    EndedIff(steps, |steps|);
    assert Exists(trace[|moves|]) && View(trace[|moves|]).state == After(steps, |steps|).state;
  }

  // Otherwise an ended call comes back. A listed call that no handler is writing is accepted and held,
  // and the second write is stored ...
  lemma AcceptedAndHeld(s: Store)
    requires Inv(s) && s.listed.Some? && s.writes == []
    ensures var s1 := Stepped(s, Respond(true, None));
      && Inv(s1) && var s2 := Stepped(s1, Hold);
      && Inv(s2) && |s2.writes| == 2 && var s3 := Moved(s2, Written(1, true));
      && Inv(s3) && s3.listed.Some? && s3.listed.value == |s.objects|
      && |s3.writes| == 1 && s3.writes[0] < |s.objects| && s3.objects[s3.writes[0]] == Held
  {
    var s1 := Stepped(s, Respond(true, None));
    SteppedKeeps(s, Respond(true, None));
    var s2 := Stepped(s1, Hold);
    SteppedKeeps(s1, Hold);
    WrittenKeeps(s2, 1, true);
  }

  // ... then it is ended and that is stored too, and at last the write of the acceptance is over and
  // lists the held object again.
  lemma EndedCallComesBack(s: Store)
    requires Inv(s) && s.listed.Some? && |s.writes| == 1 && s.writes[0] != s.listed.value && s.objects[s.writes[0]] == Held
    ensures var s1 := Stepped(s, End);
      && Inv(s1) && |s1.writes| == 2 && var s2 := Moved(s1, Written(1, true));
      && Inv(s2) && |s2.writes| == 1 && var s3 := Moved(s2, Written(0, true));
      && Inv(s3) && View(s2).state == Some(Ended) && View(s3).state == Some(Held) && !Timely(s2, Written(0, true))
  {
    var s1 := Stepped(s, End);
    SteppedKeeps(s, End);
    WrittenKeeps(s1, 1, true);
    WrittenKeeps(Moved(s1, Written(1, true)), 0, true);
  }
}
