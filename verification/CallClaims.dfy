/**
 One-to-one calls in server/routes/calls.ts: the claim of a browser tab, the 30 s timeout and the
 state of one call, over all interleavings of the handlers. The invite handler lists the call
 first and registers the timeout only after several awaits; the timeout callback changes the state
 at once and removes its entry only after its own awaits.
 */
module CallClaims {
  import opened Wrappers

  type Tab = nat

  datatype CallState = Initiating | Ringing | Connecting | Active | Held | Ended

  // The runtime's timer: not running, waiting for its 30 s, or inside its callback.
  datatype Timer = Idle | Scheduled | InCallback

  // `state` is None while the call is not listed yet; `entry` says whether `outgoingCallTimeouts`
  // holds the handle of the timer.
  datatype Call = Call(state: Option<CallState>, claim: Option<Tab>, entry: bool, timer: Timer)

  const Unknown := Call(None, None, false, Idle)

  datatype Step =
    | List                                        // the invite handler's first persistCall
    | Arm                                         // the invite handler's last step
    | Claim(tab: Tab)
    | Respond(accepted: bool, tagged: Option<Tab>)
    | Cancel
    | End
    | Hold
    | Resume
    | Fire                                        // the timeout callback up to its first await
    | Settle                                      // its `finally`

  // ---------- the handlers ----------

  predicate Waiting(state: Option<CallState>) { state == Some(Ringing) || state == Some(Initiating) }

  function Moved(state: Option<CallState>, to: CallState): Option<CallState> {
    if state.Some? then Some(to) else None
  }

  // Whether a tab's claim or tagged acceptance goes through.
  predicate Admits(claim: Option<Tab>, tab: Tab) { claim.None? || claim.value == tab }

  // `clearTimeout` on the handle, if there is one, and its removal. A callback that runs goes on.
  function Cleared(c: Call): Call {
    if c.entry then c.(entry := false, timer := if c.timer.Scheduled? then Idle else c.timer) else c
  }

  function Next(c: Call, step: Step): Call {
    match step
    case List => c.(state := Some(Ringing))
    case Arm => c.(entry := true, timer := Scheduled)
    case Claim(tab) => if c.claim.Some? then c else Cleared(c).(claim := Some(tab))
    case Respond(accepted, tab) =>
      if accepted && tab.Some? && !Admits(c.claim, tab.value) then c
      else
        Cleared(c).(state := Moved(c.state, if accepted then Connecting else Ended),
                    claim := if accepted && tab.Some? then tab else c.claim)
    case Cancel => Cleared(c).(state := Moved(c.state, Ended))
    case End => Cleared(c).(state := Moved(c.state, Ended), claim := None)
    case Hold => c.(state := Moved(c.state, Held))
    case Resume => c.(state := Moved(c.state, Active))
    case Fire =>
      if Waiting(c.state) then c.(state := Some(Ended), timer := InCallback) else c.(timer := Idle, entry := false)
    case Settle => c.(timer := Idle, entry := false)
  }

  // The tab that a claim or a tagged acceptance has just been granted to.
  function Granted(c: Call, step: Step): Option<Tab> {
    match step
    case Claim(tab) => if Admits(c.claim, tab) then Some(tab) else None
    case Respond(accepted, tab) => if accepted && tab.Some? && Admits(c.claim, tab.value) then tab else None
    case _ => None
  }

  // A response that is processed.
  predicate Processed(c: Call, step: Step) {
    step.Respond? && (step.accepted && step.tagged.Some? ==> Admits(c.claim, step.tagged.value))
  }

  // The call after the first `n` steps.
  function After(steps: seq<Step>, n: nat): Call
    requires n <= |steps|
  {
    if n == 0 then Unknown else Next(After(steps, n - 1), steps[n - 1])
  }

  predicate Earlier(steps: seq<Step>, step: Step, n: nat)
    requires n <= |steps|
  {
    exists j | 0 <= j < n :: steps[j] == step
  }

  // One invite lists the call, unless the database refuses it, and then arms its timeout; only a
  // scheduled timer fires.
  predicate PossibleAt(steps: seq<Step>, n: nat)
    requires n < |steps|
  {
    match steps[n]
    case List => !Earlier(steps, List, n) && !Earlier(steps, Arm, n)
    case Arm => !Earlier(steps, Arm, n)
    case Fire => After(steps, n).timer == Scheduled
    case Settle => After(steps, n).timer == InCallback
    case _ => true
  }

  ghost predicate Possible(steps: seq<Step>) { forall n: nat | n < |steps| :: PossibleAt(steps, n) }

  // ---------- what each step does ----------

  // A response is not processed only if it accepts for a tab while another tab holds the claim.
  predicate Refused(c: Call, step: Step) {
    step.Respond? && step.accepted && step.tagged.Some? && c.claim.Some? && c.claim != step.tagged
  }

  // The state that a step gives a listed call: an acceptance connects it, a refusal, a cancellation, an
  // end or the timeout of a ringing call ends it, and a claim leaves it ringing.
  lemma {:induction false} StatesExactly(c: Call, step: Step)
    ensures Processed(c, step) <==> step.Respond? && !Refused(c, step)
    ensures Next(c, step).state ==
      if step == List then Some(Ringing)
      else if c.state == None then None
      else if step.Respond? && !Refused(c, step) then Some(if step.accepted then Connecting else Ended)
      else if step == Cancel || step == End then Some(Ended)
      else if step == Hold then Some(Held)
      else if step == Resume then Some(Active)
      else if step == Fire && c.state in {Some(Ringing), Some(Initiating)} then Some(Ended)
      else c.state
  {
  }

  // The claim: the first tab that claims or accepts gets it, and nothing but an end takes it away.
  lemma {:induction false} ClaimsExactly(c: Call, step: Step)
    ensures Next(c, step).claim ==
      if step == End then None
      else if c.claim.Some? then c.claim
      else if step.Claim? then Some(step.tab)
      else if step.Respond? && step.accepted then step.tagged
      else None
    ensures Granted(c, step) ==
      if step.Claim? && (c.claim == None || c.claim == Some(step.tab)) then Some(step.tab)
      else if step.Respond? && step.accepted && !Refused(c, step) then step.tagged
      else None
  {
  }

  // The timeout: a first claim, a processed response, a cancellation and an end take its handle out of
  // the registry and stop it if it still waits; it leaves the registry, too, when it has fired.
  lemma {:induction false} TimeoutsExactly(c: Call, step: Step)
    ensures var clears := (step.Claim? && c.claim == None) || (step.Respond? && !Refused(c, step)) || step == Cancel || step == End;
      var rings := c.state in {Some(Ringing), Some(Initiating)};
      && Next(c, step).entry ==
           (if step == Arm then true else if clears || step == Settle || (step == Fire && !rings) then false else c.entry)
      && Next(c, step).timer ==
           (if step == Arm then Scheduled
            else if step == Settle || (step == Fire && !rings) then Idle
            else if step == Fire then InCallback
            else if clears && c.entry && c.timer == Scheduled then Idle
            else c.timer)
  {
  }

  // ---------- one tab only ----------

  lemma GrantRecords(c: Call, step: Step)
    requires Granted(c, step).Some?
    ensures Next(c, step).claim == Granted(c, step)
  {
  }

  lemma ClaimStays(c: Call, step: Step)
    requires c.claim.Some? && step != End
    ensures Next(c, step).claim == c.claim
    ensures Granted(c, step).Some? ==> Granted(c, step) == c.claim
  {
  }

  lemma {:induction false} ClaimLasts(steps: seq<Step>, i: nat, n: nat)
    requires i < n <= |steps| && Granted(After(steps, i), steps[i]).Some?
    requires forall k | i < k < n :: steps[k] != End
    ensures After(steps, n).claim == Granted(After(steps, i), steps[i])
    decreases n
  {
    if n == i + 1 {
      GrantRecords(After(steps, i), steps[i]);
    } else {
      ClaimLasts(steps, i, n - 1);
      ClaimStays(After(steps, n - 1), steps[n - 1]);
    }
  }

  // Between two ends of a call, all granted claims and tagged acceptances name one tab.
  lemma OneTabBetweenEnds(steps: seq<Step>, i: nat, j: nat)
    requires i < j < |steps| && (forall k | i < k < j :: steps[k] != End)
    requires Granted(After(steps, i), steps[i]).Some? && Granted(After(steps, j), steps[j]).Some?
    ensures Granted(After(steps, i), steps[i]) == Granted(After(steps, j), steps[j])
  {
    ClaimLasts(steps, i, j);
    ClaimStays(After(steps, j), steps[j]);
  }

  // ---------- the registry and the timer ----------

  // The registry knows every timer that is still to fire, and holds no handle of one that is over.
  predicate EntryFits(c: Call) { (c.timer.Scheduled? ==> c.entry) && (c.entry ==> !c.timer.Idle?) }

  lemma NextFits(c: Call, step: Step)
    requires EntryFits(c)
    ensures EntryFits(Next(c, step))
  {
  }

  // So a timeout whose handle was cleared and removed does not fire: a callback that starts has its
  // handle in the registry.
  lemma {:induction false} EntryAgrees(steps: seq<Step>, n: nat)
    requires n <= |steps|
    ensures EntryFits(After(steps, n))
  {
    if n > 0 {
      EntryAgrees(steps, n - 1);
      NextFits(After(steps, n - 1), steps[n - 1]);
    }
  }

  lemma {:induction false} FiredIsOver(steps: seq<Step>, i: nat, n: nat)
    requires Possible(steps) && i < n <= |steps| && steps[i] == Fire
    ensures After(steps, n).timer != Scheduled && Earlier(steps, Arm, n)
    decreases n
  {
    if n == i + 1 {
      assert PossibleAt(steps, i);
      ScheduledWasArmed(steps, i);
    } else {
      FiredIsOver(steps, i, n - 1);
      assert PossibleAt(steps, n - 1);
    }
  }

  lemma {:induction false} ScheduledWasArmed(steps: seq<Step>, n: nat)
    requires n <= |steps| && After(steps, n).timer == Scheduled
    ensures Earlier(steps, Arm, n)
  {
    if steps[n - 1] != Arm { ScheduledWasArmed(steps, n - 1); }
  }

  lemma FiresOnce(steps: seq<Step>, i: nat, j: nat)
    requires Possible(steps) && i < |steps| && j < |steps| && steps[i] == Fire && steps[j] == Fire
    ensures i == j
  {
    assert PossibleAt(steps, i) && PossibleAt(steps, j);
    if i < j { FiredIsOver(steps, i, j); }
    if j < i { FiredIsOver(steps, j, i); }
  }

  // ---------- claims and the timeout ----------

  lemma ScheduledStays(c: Call, step: Step)
    requires EntryFits(c) && step != Arm && Next(c, step).timer == Scheduled
    ensures c.timer == Scheduled && Next(c, step).claim == c.claim
  {
  }

  lemma {:induction false} ClaimAtArmStays(steps: seq<Step>, k: nat, n: nat)
    requires Possible(steps) && k < n <= |steps| && steps[k] == Arm && After(steps, n).timer == Scheduled
    ensures After(steps, n).claim == After(steps, k).claim
    decreases n
  {
    if n > k + 1 {
      assert PossibleAt(steps, n - 1);
      EntryAgrees(steps, n - 1);
      ScheduledStays(After(steps, n - 1), steps[n - 1]);
      ClaimAtArmStays(steps, k, n - 1);
    }
  }

  // Whenever the timeout fires on a call that still rings, it ends the call, and the call it ends is
  // claimed exactly if it was when the timeout was registered, and by the same tab: a later claim
  // clears the timeout, an earlier one is not looked at.
  lemma TimedOutClaimIff(steps: seq<Step>, k: nat, j: nat)
    requires Possible(steps) && k < j < |steps| && steps[k] == Arm && steps[j] == Fire && Waiting(After(steps, j).state)
    ensures After(steps, j + 1).state == Some(Ended)
    ensures After(steps, j + 1).claim == After(steps, k).claim
    ensures After(steps, j + 1).claim.Some? <==> After(steps, k).claim.Some?
  {
    assert PossibleAt(steps, j);
    ClaimAtArmStays(steps, k, j);
  }

  // No tab holds the call when its timeout is registered.
  ghost predicate UnclaimedAtArm(steps: seq<Step>) {
    forall k: nat | k < |steps| && steps[k] == Arm :: After(steps, k).claim.None?
  }

  lemma NextTimed(c: Call, step: Step)
    requires (c.entry ==> c.claim.None?) && (step == Arm ==> c.claim.None?)
    ensures Next(c, step).entry ==> Next(c, step).claim.None?
  {
  }

  // Then a call with a registered timeout is unclaimed, at every moment.
  lemma {:induction false} TimedIsUnclaimed(steps: seq<Step>, n: nat)
    requires UnclaimedAtArm(steps) && n <= |steps|
    ensures After(steps, n).entry ==> After(steps, n).claim.None?
  {
    if n > 0 {
      TimedIsUnclaimed(steps, n - 1);
      NextTimed(After(steps, n - 1), steps[n - 1]);
    }
  }

  // So the timeout never fires on a claimed call.
  lemma TimeoutSparesClaimed(steps: seq<Step>, j: nat)
    requires Possible(steps) && UnclaimedAtArm(steps) && j < |steps| && steps[j] == Fire
    ensures After(steps, j).claim.None?
  {
    assert PossibleAt(steps, j);
    TimedIsUnclaimed(steps, j);
    EntryAgrees(steps, j);
  }

  // It does happen otherwise: the call is listed, claimed by a tab, and only then armed.
  lemma ClaimedCallTimedOut(tab: Tab)
    ensures var steps := [List, Claim(tab), Arm, Fire];
      Possible(steps) && Granted(After(steps, 1), Claim(tab)) == Some(tab)
      && After(steps, 4) == Call(Some(Ended), Some(tab), true, InCallback)
  {
    var steps := [List, Claim(tab), Arm, Fire];
    assert After(steps, 0) == Unknown;
    assert After(steps, 1) == Call(Some(Ringing), None, false, Idle);
    assert After(steps, 2) == Call(Some(Ringing), Some(tab), false, Idle);
    assert After(steps, 3) == Call(Some(Ringing), Some(tab), true, Scheduled);
    forall n: nat | n < |steps| ensures PossibleAt(steps, n) {
      assert steps[0] == List;
    }
  }

  // ---------- answers and the timeout ----------

  // A step that takes a listed call out of the ringing states.
  predicate Settles(c: Call, step: Step) {
    Processed(c, step) || step == Cancel || step == End || step == Hold || step == Resume || step == Fire
  }

  predicate SettledAt(steps: seq<Step>, j: nat)
    requires j < |steps|
  {
    Settles(After(steps, j), steps[j])
  }

  lemma NextWaits(c: Call, step: Step)
    requires c.state.Some? && step != List
    ensures Next(c, step).state.Some? && (Waiting(Next(c, step).state) <==> Waiting(c.state) && !Settles(c, step))
  {
  }

  // A listed call rings as long as nothing settles it, and never again.
  lemma {:induction false} RingingIff(steps: seq<Step>, k: nat, n: nat)
    requires Possible(steps) && k < n <= |steps| && steps[k] == List
    ensures After(steps, n).state.Some?
    ensures Waiting(After(steps, n).state) <==> forall j: nat | k < j < n :: !SettledAt(steps, j)
    decreases n
  {
    if n > k + 1 {
      RingingIff(steps, k, n - 1);
      assert PossibleAt(steps, n - 1);
      NextWaits(After(steps, n - 1), steps[n - 1]);
      assert SettledAt(steps, n - 1) <==> Settles(After(steps, n - 1), steps[n - 1]);
    }
  }

  // The timeout that fires ends the call exactly if nothing has settled the call since it was listed.
  lemma TimeoutEndsIff(steps: seq<Step>, k: nat, j: nat)
    requires Possible(steps) && k < j < |steps| && steps[k] == List && steps[j] == Fire
    ensures After(steps, j + 1).state != After(steps, j).state <==> forall i: nat | k < i < j :: !SettledAt(steps, i)
    ensures After(steps, j + 1).state != After(steps, j).state ==> After(steps, j + 1).state == Some(Ended)
  {
    RingingIff(steps, k, j);
  }

  // In particular it never ends a call that was answered once it was listed, however the answer, the
  // claim and the registration of the timeout interleave.
  lemma TimeoutSparesAnswered(steps: seq<Step>, k: nat, i: nat, j: nat)
    requires Possible(steps) && k < i < j < |steps| && steps[k] == List && steps[j] == Fire
    requires Processed(After(steps, i), steps[i]) && steps[i].accepted
    ensures After(steps, j + 1).state == After(steps, j).state
  {
    TimeoutEndsIff(steps, k, j);
    assert SettledAt(steps, i);
  }

  // An answer that comes before the call is listed is processed, and does not keep the call alive.
  lemma AnsweredTooEarly(tagged: Option<Tab>)
    ensures var steps := [Respond(true, tagged), List, Arm, Fire];
      Possible(steps) && Processed(After(steps, 0), steps[0]) && After(steps, 4).state == Some(Ended)
  {
    var steps := [Respond(true, tagged), List, Arm, Fire];
    assert After(steps, 1) == Call(None, tagged, false, Idle);
    assert After(steps, 3) == Call(Some(Ringing), tagged, true, Scheduled);
    forall n: nat | n < |steps| ensures PossibleAt(steps, n) {
      assert steps[1] == List;
    }
  }

  // ---------- what ended a call ----------

  // A step that writes the state of the call, and one that writes Ended.
  predicate Moves(c: Call, step: Step) {
    step == List || (c.state.Some? && Settles(c, step) && (step == Fire ==> Waiting(c.state)))
  }

  predicate Ends(c: Call, step: Step) {
    c.state.Some?
    && (step == Cancel || step == End || (step.Respond? && !step.accepted) || (step == Fire && Waiting(c.state)))
  }

  lemma StepEnds(c: Call, step: Step)
    ensures Moves(c, step) ==> (Next(c, step).state == Some(Ended) <==> Ends(c, step))
    ensures !Moves(c, step) ==> Next(c, step).state == c.state
  {
  }

  predicate MovedAt(steps: seq<Step>, j: nat)
    requires j < |steps|
  {
    Moves(After(steps, j), steps[j])
  }

  ghost predicate LastMove(steps: seq<Step>, k: nat, n: nat)
    requires n <= |steps|
  {
    k < n && MovedAt(steps, k) && forall j: nat | k < j < n :: !MovedAt(steps, j)
  }

  lemma LastMoveNext(steps: seq<Step>, k: nat, n: nat)
    requires n < |steps|
    ensures MovedAt(steps, n) ==> (LastMove(steps, k, n + 1) <==> k == n)
    ensures !MovedAt(steps, n) ==> (LastMove(steps, k, n + 1) <==> LastMove(steps, k, n))
  {
  }

  ghost predicate EndedLast(steps: seq<Step>, k: nat, n: nat)
    requires n <= |steps|
  {
    LastMove(steps, k, n) && Ends(After(steps, k), steps[k])
  }

  // A call has ended exactly if the last step that wrote its state was a cancellation, an end, a
  // declining response or the timeout of a ringing call.
  lemma {:induction false} EndedIff(steps: seq<Step>, n: nat)
    requires n <= |steps|
    ensures After(steps, n).state == Some(Ended) <==> exists k: nat :: EndedLast(steps, k, n)
  {
    if n > 0 {
      var m := n - 1;
      EndedIff(steps, m);
      StepEnds(After(steps, m), steps[m]);
      forall k: nat ensures EndedLast(steps, k, n)
        <==> if MovedAt(steps, m) then k == m && Ends(After(steps, m), steps[m]) else EndedLast(steps, k, m)
      {
        LastMoveNext(steps, k, m);
      }
      if MovedAt(steps, m) {
        assert EndedLast(steps, m, n) <==> Ends(After(steps, m), steps[m]);
      }
    }
  }
}
