/** The handle that `startProgressReply` returns, with the variables of its closure. Every
  * callback is one step of the progress state machine. */
module ProgressHandle {
  import opened Records
  import opened ProgressReply

  class ProgressHandle {
    var timer: bool
    var attempt: Marker
    var delivery: Delivery
    var settled: bool
    var calls: seq<Settle>

    function Now(): State
      reads this
    {
      State(timer, attempt, delivery, settled, calls)
    }

    constructor (e: Event, now: Instant)
      ensures Now() == ProgressReply.Start(e, now)
      // at once when the message is 20 seconds old, after that time otherwise, and never when it
      // has a reply or a progress message or needs no agent
      ensures var needed := !e.unsupported && e.replyAt.None? && e.progressAt.None?;
              && (timer <==> needed && now < e.receivedAt + 20_000)
              && (attempt.Asked? <==> needed && e.receivedAt + 20_000 <= now)
              && delivery.NotSent? && !settled && calls == []
    {
      timer, attempt, delivery, settled, calls := false, Unasked, NotSent, false, [];
      if e.unsupported || e.replyAt.Some? || e.progressAt.Some? {
        attempt := Handled;
      } else if e.receivedAt + PROGRESS_REPLY_DELAY <= now {
        attempt := Asked;
      } else {
        timer := true;
      }
    }

    /** The timer callback: `begin` refuses once settled, or when an attempt is under way. */
    method OnTimer()
      requires timer
      modifies this
      ensures Now() == After(old(Now()), TimerFires)
      ensures !timer && attempt == (if old(attempt).Unasked? && !old(settled) then Asked else old(attempt))
      ensures delivery == old(delivery) && settled == old(settled) && calls == old(calls)
    {
      timer := false;
      if settled || !attempt.Unasked? { return; }
      attempt := Asked;
    }

    /** `markProgressAttempted` answers, and the attempt resumes later. */
    method OnMarker(admitted: bool)
      requires attempt.Asked?
      modifies this
      ensures Now() == After(old(Now()), MarkerAnswers(admitted)) && attempt == Answered(admitted)
      ensures timer == old(timer) && delivery == old(delivery) && settled == old(settled) && calls == old(calls)
    {
      attempt := Answered(admitted);
    }

    method ResumeAttempt() returns (sends: bool)
      requires attempt.Answered? && Inv(Now())
      modifies this
      ensures Now() == After(old(Now()), MarkerResumes) && Inv(Now())
      ensures sends ==> !HasReturned(Now()) && delivery.Sending?
      ensures sends <==> old(attempt.admitted && !settled)
      ensures attempt.Handled? && delivery == (if sends then Sending else old(delivery))
      ensures timer == old(timer) && settled == old(settled) && calls == old(calls)
    {
      sends := attempt.admitted && !settled;
      attempt := Handled;
      StepKeepsInv(old(Now()), MarkerResumes);
      if sends { delivery := Sending; }
    }

    method OnDelivery()
      requires delivery.Sending?
      modifies this
      ensures Now() == After(old(Now()), DeliveryEnds) && delivery.Over?
      ensures timer == old(timer) && attempt == old(attempt) && settled == old(settled) && calls == old(calls)
    {
      delivery := Over;
    }

    /** `settle` up to its first tick. */
    method BeginSettle() returns (call: nat)
      modifies this
      ensures Now() == After(old(Now()), CallSettle) && call == |old(calls)|
      ensures !timer && calls == old(calls) + [Called]
      ensures attempt == old(attempt) && delivery == old(delivery) && settled == old(settled)
    {
      timer := false;
      call := |calls|;
      calls := calls + [Called];
    }

    /** After the tick: no new attempt may send, and what is in flight is awaited. */
    method AwaitDelivery(call: nat)
      requires call < |calls| && calls[call].Called?
      modifies this
      ensures Now() == After(old(Now()), SettleTicks(call))
      ensures settled && calls == old(calls)[call := Waiting(old(delivery).Sending?)]
      ensures timer == old(timer) && attempt == old(attempt) && delivery == old(delivery)
    {
      settled := true;
      calls := calls[call := Waiting(delivery.Sending?)];
    }

    /** `settle` returns: nothing is in flight, and nothing will be. */
    method EndSettle(call: nat)
      requires Enabled(Now(), SettleReturns(call)) && Inv(Now())
      modifies this
      ensures Now() == After(old(Now()), SettleReturns(call)) && Inv(Now())
      ensures settled && !delivery.Sending?
    {
      StepKeepsInv(Now(), SettleReturns(call));
      calls := calls[call := Returned];
      assert calls[call].Returned?;
    }

    /** `settle` from its call to its return, while nothing but the delivery it awaits moves. */
    method Settle()
      requires Inv(Now())
      modifies this
      ensures Inv(Now()) && HasReturned(Now()) && settled && !timer && !delivery.Sending?
      ensures attempt == old(attempt) && (!old(delivery).Sending? ==> delivery == old(delivery))
    {
      ghost var before := Now();
      var call := BeginSettle();
      StepKeepsInv(before, CallSettle);
      ghost var asked := Now();
      AwaitDelivery(call);
      StepKeepsInv(asked, SettleTicks(call));
      if delivery.Sending? {
        ghost var waiting := Now();
        OnDelivery();
        StepKeepsInv(waiting, DeliveryEnds);
      }
      EndSettle(call);
      assert calls[call].Returned?;
    }

    /** An attempt whose marker answers: it sends only if it was admitted before any settling. */
    method FinishAttempt(admitted: bool) returns (sends: bool)
      requires attempt.Asked? && Inv(Now())
      modifies this
      ensures Inv(Now()) && attempt.Handled? && settled == old(settled)
      ensures sends <==> admitted && !old(settled)
      ensures sends ==> delivery.Sending? && !HasReturned(Now())
    {
      StepKeepsInv(Now(), MarkerAnswers(admitted));
      OnMarker(admitted);
      sends := ResumeAttempt();
    }
  }
}
