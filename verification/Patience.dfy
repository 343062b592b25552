/** A message that is answered quickly gets no progress message. */
module Patience {
  import opened Records
  import opened MessageProtocol
  import opened MessageSafety
  import MessageTheorems
  import EventRows
  import P = ProgressReply

  /** The progress attempt has begun. */
  predicate Begun(progress: P.State) {
    progress.marker.Asked? || progress.marker.Answered? || !progress.delivery.NotSent?
  }

  ghost predicate WaitedEnough(s: System) { s.row.receivedAt + 20_000 <= s.now }

  ghost predicate PatienceWorkerInv(s: System, w: Worker) {
    w.snapshot.receivedAt == s.row.receivedAt && (Begun(w.progress) ==> WaitedEnough(s))
  }

  ghost predicate PatienceInv(s: System) {
    && (forall a :: a in s.workers ==> PatienceWorkerInv(s, s.workers[a]))
    && (s.progressSends != [] ==> WaitedEnough(s))
  }

  lemma StepKeepsArrival(s: System, step: Step)
    requires Enabled(s, step)
    ensures After(s, step).row.receivedAt == s.row.receivedAt && After(s, step).now >= s.now
  {
    if !step.Claim? && !step.Recover? {
      StepStores(s, step);
      if CallOf(s, step).Some? && EventRows.Accepts(s.row, CallOf(s, step).value) {
        EventRows.CallsAreFenced(s.row, CallOf(s, step).value, StartOf(s, step));
      }
    }
  }

  /** An attempt begins with the timer, or at the start when the message is old enough. */
  lemma InnerStepWaits(progress: P.State, inner: P.Step)
    requires P.Enabled(progress, inner) && !Begun(progress) && Begun(P.After(progress, inner))
    ensures inner.TimerFires?
  {
  }

  lemma ActorWaits(s: System, step: Step)
    requires Enabled(s, step) && step.OfWorker() && PatienceWorkerInv(s, s.workers[step.a])
    ensures Begun(Moved(s, step).progress) ==> WaitedEnough(s)
  {
    if step.Progress? && !Begun(s.workers[step.a].progress) && Begun(Moved(s, step).progress) {
      InnerStepWaits(s.workers[step.a].progress, step.inner);
    }
  }

  lemma WorkerWaits(s: System, step: Step, a: nat, after: System)
    requires Enabled(s, step) && ClaimsInv(s) && PatienceInv(s) && a in s.workers && after == After(s, step)
    ensures a in after.workers && PatienceWorkerInv(after, after.workers[a])
  {
    StepKeepsArrival(s, step);
    StepKeepsSnapshots(s, step, a);
    OthersStay(s, step, a);
    assert PatienceWorkerInv(s, s.workers[a]);
    if step.OfWorker() && step.a == a { ActorWaits(s, step); }
  }

  lemma SendsWait(s: System, step: Step, after: System)
    requires Enabled(s, step) && PatienceInv(s) && after == After(s, step)
    ensures after.progressSends != [] ==> WaitedEnough(after)
  {
    StepKeepsArrival(s, step);
    if step.Progress? { assert PatienceWorkerInv(s, s.workers[step.a]); } else { OtherStepSendsNoProgress(s, step); }
  }

  lemma StepKeepsPatience(s: System, step: Step)
    requires Enabled(s, step) && ClaimsInv(s) && PatienceInv(s)
    ensures PatienceInv(After(s, step))
  {
    var after := After(s, step);
    StepKeepsArrival(s, step);
    OnlyClaimsAddWorkers(s, step);
    SendsWait(s, step, after);
    forall a | a in after.workers ensures PatienceWorkerInv(after, after.workers[a]) {
      if a in s.workers { WorkerWaits(s, step, a, after); }
    }
  }

  lemma PatienceAlways(states: seq<System>, steps: seq<Step>, i: nat)
    requires IsRun(states, steps) && i < |states|
    ensures PatienceInv(states[i])
  {
    if i > 0 {
      PatienceAlways(states, steps, i - 1);
      MessageTheorems.SafetyAlways(states, steps, i - 1);
      assert states[i - 1 + 1] == After(states[i - 1], steps[i - 1]);
      StepKeepsPatience(states[i - 1], steps[i - 1]);
    }
  }

  /** Over every run, with any number of claims, no progress message is sent before the message
    * is twenty seconds old. */
  lemma ProgressWaits(states: seq<System>, steps: seq<Step>, i: nat)
    requires IsRun(states, steps) && i < |states| && states[i].progressSends != []
    ensures states[i].row.receivedAt + 20_000 <= states[i].now
  {
    PatienceAlways(states, steps, i);
  }
}
