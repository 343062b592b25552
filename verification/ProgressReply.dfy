/** The closure of `startProgressReply`: a timer, an admission marker, one delivery, and
  * any number of `settle` calls, all competing on one event loop. */
module ProgressReply {
  import opened Records

  const PROGRESS_REPLY_DELAY := 20_000

  /** `attemptInFlight`: not begun, waiting for the store, answered but not resumed, over. */
  datatype Marker = Unasked | Asked | Answered(admitted: bool) | Handled

  datatype Delivery = NotSent | Sending | Over

  /** One `settle` call: before its first tick, awaiting what it saw in flight, returned. */
  datatype Settle = Called | Waiting(sawDelivery: bool) | Returned

  datatype State = State(timer: bool, marker: Marker, delivery: Delivery, settled: bool, calls: seq<Settle>)

  datatype Step =
    | TimerFires
    | MarkerAnswers(admitted: bool)
    | MarkerResumes
    | DeliveryEnds
    | CallSettle
    | SettleTicks(call: nat)
    | SettleReturns(call: nat)

  function Begin(s: State): State {
    if s.settled || !s.marker.Unasked? then s else s.(marker := Asked)
  }

  function Start(e: Event, now: Instant): State {
    if e.unsupported || e.replyAt.Some? || e.progressAt.Some? then State(false, Handled, NotSent, false, [])
    else if Max(0, e.receivedAt + PROGRESS_REPLY_DELAY - now) == 0
    then Begin(State(false, Unasked, NotSent, false, []))
    else State(true, Unasked, NotSent, false, [])
  }

  predicate Enabled(s: State, step: Step) {
    match step
    case TimerFires => s.timer
    case MarkerAnswers(_) => s.marker.Asked?
    case MarkerResumes => s.marker.Answered?
    case DeliveryEnds => s.delivery.Sending?
    case CallSettle => true
    case SettleTicks(i) => i < |s.calls| && s.calls[i].Called?
    case SettleReturns(i) =>
      i < |s.calls| && s.calls[i].Waiting? && (s.calls[i].sawDelivery ==> !s.delivery.Sending?)
  }

  function After(s: State, step: Step): State
    requires Enabled(s, step)
  {
    match step
    case TimerFires => Begin(s.(timer := false))
    case MarkerAnswers(admitted) => s.(marker := Answered(admitted))
    case MarkerResumes =>
      s.(marker := Handled, delivery := if s.marker.admitted && !s.settled then Sending else s.delivery)
    case DeliveryEnds => s.(delivery := Over)
    case CallSettle => s.(timer := false, calls := s.calls + [Called])
    case SettleTicks(i) => s.(settled := true, calls := s.calls[i := Waiting(s.delivery.Sending?)])
    case SettleReturns(i) => s.(calls := s.calls[i := Returned])
  }

  predicate HasReturned(s: State) { exists i :: 0 <= i < |s.calls| && s.calls[i].Returned? }

  /** The barrier: a settle call that no longer awaits anything leaves no delivery in flight. */
  predicate Inv(s: State) {
    && (s.delivery.NotSent? || s.marker.Handled?)
    && (forall i :: 0 <= i < |s.calls| && !s.calls[i].Called? ==> s.settled)
    && (forall i :: 0 <= i < |s.calls| && s.calls[i] == Waiting(false) ==> !s.delivery.Sending?)
    && (HasReturned(s) ==> s.settled && !s.delivery.Sending?)
  }

  lemma StepKeepsInv(s: State, step: Step)
    requires Inv(s) && Enabled(s, step)
    ensures Inv(After(s, step))
    ensures HasReturned(s) ==> HasReturned(After(s, step))
    ensures After(s, step).delivery != s.delivery ==>
              step.DeliveryEnds? || (step.MarkerResumes? && s.delivery.NotSent? && s.marker == Answered(true))
  {
    var after := After(s, step);
    if HasReturned(s) {
      var i :| 0 <= i < |s.calls| && s.calls[i].Returned?;
      assert after.calls[i].Returned?;
    }
    if step.SettleReturns? && HasReturned(after) && !HasReturned(s) {
      assert s.calls[step.call] == Waiting(false) || !s.delivery.Sending?;
    }
  }

  ghost predicate IsRun(states: seq<State>, steps: seq<Step>, e: Event, now: Instant) {
    && |states| == |steps| + 1
    && states[0] == Start(e, now)
    && forall i {:trigger steps[i]} :: 0 <= i < |steps| ==>
         Enabled(states[i], steps[i]) && states[i + 1] == After(states[i], steps[i])
  }

  /** For every interleaving: after a settle call has returned no delivery is in flight,
    * now or at any later point, so none can overlap the reply that follows the call. */
  lemma NothingInFlightAfterSettle(states: seq<State>, steps: seq<Step>, e: Event, now: Instant, i: nat, j: nat)
    requires IsRun(states, steps, e, now) && i <= j < |states| && HasReturned(states[i])
    ensures !states[j].delivery.Sending?
  {
    InvAlways(states, steps, e, now, j);
    var k := i;
    while k < j
      invariant i <= k <= j && HasReturned(states[k])
    {
      InvAlways(states, steps, e, now, k);
      assert states[k + 1] == After(states[k], steps[k]);
      StepKeepsInv(states[k], steps[k]);
      k := k + 1;
    }
  }

  lemma InvAlways(states: seq<State>, steps: seq<Step>, e: Event, now: Instant, i: nat)
    requires IsRun(states, steps, e, now) && i < |states|
    ensures Inv(states[i])
  {
    if i > 0 {
      InvAlways(states, steps, e, now, i - 1);
      assert states[i - 1 + 1] == After(states[i - 1], steps[i - 1]);
      StepKeepsInv(states[i - 1], steps[i - 1]);
    }
  }
}
