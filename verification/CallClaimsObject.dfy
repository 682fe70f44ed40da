/** The registries of server/routes/calls.ts that the handlers update in place, for all calls. */
module CallClaimsObject {
  import opened Wrappers
  import opened CallClaims

  type CallId = nat

  datatype ClaimAnswer = CallClaimed | AlreadyClaimed(claimedBy: Tab)

  class CallRegistry {
    var activeCallClaims: map<CallId, Tab>
    // The keys of the map; the handle of a call's timer is the timer's own business.
    var outgoingCallTimeouts: set<CallId>
    var calls: map<CallId, CallState>
    // The runtime's timers.
    var timers: map<CallId, Timer>

    constructor ()
      ensures forall id :: View(id) == Unknown
    {
      activeCallClaims, outgoingCallTimeouts, calls, timers := map[], {}, map[], map[];
    }

    // What the registries and the runtime hold about one call.
    function View(id: CallId): Call
      reads this
    {
      Call(if id in calls then Some(calls[id]) else None,
           if id in activeCallClaims then Some(activeCallClaims[id]) else None,
           id in outgoingCallTimeouts,
           if id in timers then timers[id] else Idle)
    }

    // One call has taken a step, no other has changed.
    twostate predicate Stepped(id: CallId, step: Step)
      reads this
    {
      && View(id) == Next(old(View(id)), step)
      && forall other | other != id :: View(other) == old(View(other))
    }

    // `clearTimeout(timer)` and `outgoingCallTimeouts.delete(callId)`, if there is a handle.
    method ClearTimeout(id: CallId)
      modifies this`outgoingCallTimeouts, this`timers
      ensures View(id) == Cleared(old(View(id)))
      ensures forall other | other != id :: View(other) == old(View(other))
    {
      if id in outgoingCallTimeouts {
        if id in timers && timers[id] == Scheduled {
          timers := timers - {id};
        }
        outgoingCallTimeouts := outgoingCallTimeouts - {id};
      }
    }

    method SetState(id: CallId, state: CallState)
      modifies this`calls
      ensures View(id) == old(View(id)).(state := Moved(old(View(id)).state, state))
      ensures forall other | other != id :: View(other) == old(View(other))
    {
      if id in calls {
        calls := calls[id := state];
      }
    }

    method ListCall(id: CallId)
      modifies this
      ensures Stepped(id, List)
    {
      calls := calls[id := Ringing];
    }

    method ArmTimeout(id: CallId)
      modifies this
      ensures Stepped(id, Arm)
    {
      timers := timers[id := Scheduled];
      outgoingCallTimeouts := outgoingCallTimeouts + {id};
    }

    method ClaimCall(id: CallId, tab: Tab) returns (answer: ClaimAnswer)
      modifies this
      ensures Stepped(id, Claim(tab))
      ensures answer == CallClaimed <==> Granted(old(View(id)), Claim(tab)) == Some(tab)
      ensures answer.AlreadyClaimed? ==> old(View(id)).claim == Some(answer.claimedBy) && answer.claimedBy != tab
    {
      if id in activeCallClaims {
        if activeCallClaims[id] == tab { return CallClaimed; }
        return AlreadyClaimed(activeCallClaims[id]);
      }
      activeCallClaims := activeCallClaims[id := tab];
      ClearTimeout(id);
      answer := CallClaimed;
    }

    method RespondToCall(id: CallId, accepted: bool, tagged: Option<Tab>) returns (processed: bool)
      modifies this
      ensures Stepped(id, Respond(accepted, tagged))
      ensures processed <==> Processed(old(View(id)), Respond(accepted, tagged))
    {
      if accepted && tagged.Some? {
        if id in activeCallClaims && activeCallClaims[id] != tagged.value { return false; }
        if id !in activeCallClaims {
          activeCallClaims := activeCallClaims[id := tagged.value];
        }
      }
      ClearTimeout(id);
      SetState(id, if accepted then Connecting else Ended);
      processed := true;
    }

    method CancelCall(id: CallId)
      modifies this
      ensures Stepped(id, Cancel)
    {
      ClearTimeout(id);
      SetState(id, Ended);
    }

    method EndCall(id: CallId)
      modifies this
      ensures Stepped(id, End)
    {
      ClearTimeout(id);
      activeCallClaims := activeCallClaims - {id};
      SetState(id, Ended);
    }

    method HoldCall(id: CallId)
      modifies this
      ensures Stepped(id, Hold)
    {
      SetState(id, Held);
    }

    method ResumeCall(id: CallId)
      modifies this
      ensures Stepped(id, Resume)
    {
      SetState(id, Active);
    }

    // The 30 s callback up to its first await; without one, `finally` runs at once.
    method FireTimeout(id: CallId)
      requires View(id).timer == Scheduled
      modifies this
      ensures Stepped(id, Fire)
    {
      if id in calls && (calls[id] == Ringing || calls[id] == Initiating) {
        calls := calls[id := Ended];
        timers := timers[id := InCallback];
      } else {
        timers := timers - {id};
        outgoingCallTimeouts := outgoingCallTimeouts - {id};
      }
    }

    method SettleTimeout(id: CallId)
      requires View(id).timer == InCallback
      modifies this
      ensures Stepped(id, Settle)
    {
      timers := timers - {id};
      outgoingCallTimeouts := outgoingCallTimeouts - {id};
    }
  }
}
