/** How often a reply can be sent again before its window closes. */
module MessageTiming {
  import opened Records
  import opened MessageProtocol
  import opened MessageSafety
  import opened MessageTheorems
  import EventRows

  const MAX_SENDS := 15

  /** How long after its lease was computed a claim may commit: a little over 15 minutes. */
  const CLAIM_DELAY := 910_909

  /** What such a lease still leaves after the claim. */
  const LEASE_REST := LEASE - CLAIM_DELAY

  ghost predicate Prompt(s: System, step: Step) { step.Claim? ==> s.now - step.computedAt <= CLAIM_DELAY }

  /** The assumption of the bound: every claim commits soon enough. */
  ghost predicate AllPrompt(states: seq<System>, steps: seq<Step>)
    requires |states| == |steps| + 1
  {
    forall i {:trigger steps[i]} :: 0 <= i < |steps| ==> Prompt(states[i], steps[i])
  }

  // ---------- back-off ----------

  lemma BackoffValues()
    ensures Backoff(1) == 30_000 && Backoff(2) == 60_000 && Backoff(3) == 120_000 && Backoff(4) == 240_000
    ensures Backoff(5) == MAX_BACKOFF
    ensures forall n: nat :: n >= 5 ==> Backoff(n) == MAX_BACKOFF
  {
    assert Power(1) == 2 && Power(2) == 4 && Power(3) == 8 && Power(4) == 16;
  }

  /** The least time between claim `n` and the next: a back-off or what is left of a lease. */
  function Pause(n: nat): int
    requires n >= 1
  {
    Min(Backoff(n), LEASE_REST)
  }

  lemma PauseGrows(a: nat, b: nat)
    requires 1 <= a <= b
    ensures 30_000 <= Pause(a) <= Pause(b) <= LEASE_REST
    ensures Pause(a) <= Backoff(a) <= MAX_BACKOFF
  {
    BackoffValues();
  }

  /** The least time between the claims `first` and `last`. */
  function Gap(first: nat, last: nat): int
    requires 1 <= first <= last
    decreases last
  {
    if first == last then 0 else Gap(first, last - 1) + Pause(last - 1)
  }

  lemma {:induction false} GapGrows(first: nat, mid: nat, last: nat)
    requires 1 <= first <= mid <= last
    ensures Gap(first, mid) <= Gap(first, last)
  {
    if mid < last {
      GapGrows(first, mid, last - 1);
      PauseGrows(last - 1, last - 1);
    }
  }

  lemma {:induction false} GapShifts(first: nat, length: nat)
    requires 2 <= first
    ensures Gap(2, 2 + length) <= Gap(first, first + length)
  {
    if length > 0 {
      GapShifts(first, length - 1);
      PauseGrows(2 + length - 1, first + length - 1);
    }
  }

  lemma FourteenRetriesExceedWindow()
    ensures Gap(2, 16) > REPLY_WINDOW
  {
    BackoffValues();
    assert Gap(2, 5) == 420_000;
    assert Gap(2, 8) == 420_000 + 3 * LEASE_REST;
    assert Gap(2, 11) == 420_000 + 6 * LEASE_REST;
    assert Gap(2, 14) == 420_000 + 9 * LEASE_REST;
  }

  /** A claim that starts inside the window is at most fourteen claims after the mark. */
  lemma WindowBoundsClaims(marked: nat, claim: nat)
    requires 1 <= marked < claim && Gap(marked + 1, claim) < REPLY_WINDOW
    ensures claim < marked + MAX_SENDS
  {
    if claim >= marked + MAX_SENDS {
      FourteenRetriesExceedWindow();
      GapShifts(marked + 1, 14);
      GapGrows(marked + 1, marked + 15, claim);
    }
  }

  // ---------- the clock ----------

  /** A lease leaves `LEASE_REST` after its claim. */
  ghost predicate LeaseInv(s: System) {
    && s.lastClaim <= s.now
    && (s.row.status.Processing? ==>
          s.row.leasedUntil.Some? && s.lastClaim + LEASE_REST <= s.row.leasedUntil.value)
    && (forall a :: a in s.workers ==> s.workers[a].claimedAt <= s.now)
    && (s.row.status.Processing? ==>
          s.row.attempts in s.workers && s.workers[s.row.attempts].claimedAt == s.lastClaim)
  }

  /** The earliest instant of claim `n`, once the reply has been marked. */
  function Floor(m: Mark, n: nat): Instant
    requires 1 <= m.attempt < n
  {
    m.at + Gap(m.attempt + 1, n)
  }

  ghost predicate FloorInv(s: System) {
    |s.marks| == 1 && 1 <= s.marks[0].attempt ==>
      var m := s.marks[0];
      && (s.row.status.Processing? && m.attempt < s.row.attempts ==> Floor(m, s.row.attempts) <= s.lastClaim)
      && (s.row.status.Queued? && m.attempt < s.row.attempts ==> Floor(m, s.row.attempts + 1) <= s.row.nextAttemptAt)
      && (forall a :: a in s.workers && m.attempt < a ==> Floor(m, a) <= s.workers[a].claimedAt)
  }

  /** Claim `a` is the marking one or one of the next fourteen. */
  predicate InWindow(s: System, a: nat) {
    |s.marks| == 1 && 1 <= s.marks[0].attempt <= a < s.marks[0].attempt + MAX_SENDS
  }

  ghost predicate MaySend(s: System, a: nat) {
    a in s.workers && (s.workers[a].pc.Sending? || s.workers[a].pc.Sent?)
  }

  /** Who sends the reply is the marking claim or one that looked inside the window. */
  ghost predicate WindowInv(s: System) { forall a :: MaySend(s, a) ==> InWindow(s, a) }

  ghost predicate SendWindowInv(s: System) {
    forall i :: 0 <= i < |s.sends| ==> InWindow(s, s.sends[i].attempt)
  }

  ghost predicate TimingInv(s: System) {
    SafetyInv(s) && LeaseInv(s) && FloorInv(s) && WindowInv(s) && SendWindowInv(s)
  }

  lemma FencedKeepsLease(s: System, call: EventRows.Call, startedAt: Instant)
    ensures var t := Fenced(s, call, startedAt);
            && t.row.attempts == s.row.attempts
            && (t.row.status.Processing? ==> s.row.status.Processing? && t.row.leasedUntil == s.row.leasedUntil)
  {
  }

  /** A step other than a claim keeps the lease of a row that stays processing. */
  lemma StepKeepsRowLease(s: System, step: Step)
    requires Enabled(s, step) && !step.Claim?
    ensures var after := After(s, step);
            && after.row.attempts == s.row.attempts && after.lastClaim == s.lastClaim && after.now >= s.now
            && (after.row.status.Processing? ==>
                  s.row.status.Processing? && after.row.leasedUntil == s.row.leasedUntil)
  {
    if !step.Recover? {
      StepStores(s, step);
      if CallOf(s, step).Some? { FencedKeepsLease(s, CallOf(s, step).value, StartOf(s, step)); }
    }
  }

  lemma StepKeepsClaimTimes(s: System, step: Step)
    requires Enabled(s, step) && ClaimsInv(s)
    ensures forall a :: a in s.workers ==>
      a in After(s, step).workers && After(s, step).workers[a].claimedAt == s.workers[a].claimedAt
  {
    forall a | a in s.workers
      ensures a in After(s, step).workers && After(s, step).workers[a].claimedAt == s.workers[a].claimedAt
    {
      StepKeepsSnapshots(s, step, a);
    }
  }

  lemma StepKeepsLease(s: System, step: Step)
    requires Enabled(s, step) && Prompt(s, step) && SafetyInv(s) && LeaseInv(s)
    ensures LeaseInv(After(s, step))
  {
    OnlyClaimsAddWorkers(s, step);
    StepKeepsClaimTimes(s, step);
    if !step.Claim? { StepKeepsRowLease(s, step); }
  }

  /** Every accepted retry of attempt `a` waits out its back-off, counted from when the worker
    * read its clock, whenever the statement began and whenever it commits. */
  lemma RetryWaits(computedAt: Instant, startedAt: Instant, a: nat, drain: bool, code: string)
    requires a >= 1 && computedAt <= startedAt
    ensures var next := EventRows.RetryInstant(RetryCall(computedAt, a, drain, code).nextAttemptAt, startedAt);
            computedAt + Backoff(a) <= next && startedAt < next
  {
    PauseGrows(a, a);
  }

  ghost predicate QueuedFloor(m: Mark, row: Event) {
    1 <= m.attempt < row.attempts && row.status.Queued? ==> Floor(m, row.attempts + 1) <= row.nextAttemptAt
  }

  lemma FencedKeepsFloor(s: System, step: Step)
    requires Enabled(s, step) && !step.Claim? && !step.Recover?
    requires SafetyInv(s) && LeaseInv(s) && FloorInv(s)
    ensures var t := Stored(s, step); |t.marks| == 1 ==> QueuedFloor(t.marks[0], t.row)
  {
    if CallOf(s, step).Some? {
      var call := CallOf(s, step).value;
      if call.Retry? { RetriesBackOff(s, step); }
      CallKeepsFloor(s, call, StartOf(s, step));
    }
  }

  /** The retry was computed by the claim that makes it, before its statement began. */
  ghost predicate BacksOff(s: System, call: EventRows.Call, startedAt: Instant) {
    && call.Retry? && call.attempt >= 1 && call.attempt in s.workers
    && exists computedAt, drain, code ::
         call == RetryCall(computedAt, call.attempt, drain, code)
         && s.workers[call.attempt].claimedAt <= computedAt <= startedAt
  }

  lemma RetriesBackOff(s: System, step: Step)
    requires Enabled(s, step) && CallOf(s, step).Some? && CallOf(s, step).value.Retry?
    ensures BacksOff(s, CallOf(s, step).value, StartOf(s, step))
  {
    var call := CallOf(s, step).value;
    if step.Release? {
      assert call == RetryCall(step.computedAt, call.attempt, step.drain, step.code);
    } else {
      assert call == RetryCall(step.computedAt, call.attempt, false, "agent_failed");
    }
  }

  lemma CallKeepsFloor(s: System, call: EventRows.Call, startedAt: Instant)
    requires SafetyInv(s) && LeaseInv(s) && FloorInv(s) && (call.Retry? ==> BacksOff(s, call, startedAt))
    ensures var t := Fenced(s, call, startedAt); |t.marks| == 1 ==> QueuedFloor(t.marks[0], t.row)
  {
    if EventRows.Accepts(s.row, call) && call.Retry? {
      var computedAt, drain, code :| call == RetryCall(computedAt, call.attempt, drain, code)
                                     && s.workers[call.attempt].claimedAt <= computedAt <= startedAt;
      RetryWaits(computedAt, startedAt, s.row.attempts, drain, code);
      PauseGrows(s.row.attempts, s.row.attempts);
    }
  }

  lemma ClaimKeepsFloor(s: System, step: Step)
    requires Enabled(s, step) && step.Claim? && SafetyInv(s) && LeaseInv(s) && FloorInv(s)
    ensures FloorInv(After(s, step))
  {
    StepKeepsClaimTimes(s, step);
    OnlyClaimsAddWorkers(s, step);
  }

  lemma RecoverKeepsFloor(s: System, step: Step)
    requires Enabled(s, step) && step.Recover? && SafetyInv(s) && LeaseInv(s) && FloorInv(s)
    ensures FloorInv(After(s, step))
  {
    PauseGrows(s.row.attempts, s.row.attempts);
  }

  lemma StepKeepsFloor(s: System, step: Step)
    requires Enabled(s, step) && SafetyInv(s) && LeaseInv(s) && FloorInv(s)
    ensures FloorInv(After(s, step))
  {
    if step.Recover? {
      RecoverKeepsFloor(s, step);
    } else if step.Claim? {
      ClaimKeepsFloor(s, step);
    } else {
      StepKeepsReplyRow(s, step);
      OnlyClaimsAddWorkers(s, step);
      StepKeepsClaimTimes(s, step);
      StepKeepsRowLease(s, step);
      StepStores(s, step);
      FencedKeepsFloor(s, step);
    }
  }

  /** A worker that may send was the marker, or saw the mark in its snapshot and the window open. */
  lemma InspectionBoundsClaim(s: System, a: nat)
    requires TimingInv(s) && a in s.workers && s.workers[a].snapshot.replyAt.Some?
    requires Recovered(s.workers[a].snapshot, s.now).Some?
    ensures |s.marks| == 1 && 1 <= s.marks[0].attempt <= a < s.marks[0].attempt + MAX_SENDS
  {
    assert ReplyWorkerInv(s, a, s.workers[a]);
    WindowBoundsClaims(s.marks[0].attempt, a);
  }

  lemma MarkerIsInWindow(s: System, step: Step)
    requires Enabled(s, step) && step.MarkReply? && SafetyInv(s)
    requires After(s, step).workers[step.a].pc.Sending?
    ensures |After(s, step).marks| == 1 && After(s, step).marks[0].attempt == step.a
  {
    if s.row.OwnedBy(step.a) { MarkersAreFirst(s, step.a); }
  }

  /** Only looking up a fixed reply, or fixing one, gives a worker something to send. */
  lemma NewSenders(s: System, step: Step, a: nat)
    requires Enabled(s, step) && SafetyInv(s) && MaySend(After(s, step), a) && !MaySend(s, a)
    ensures a in s.workers
    ensures (step.MarkReply? && step.a == a)
            || (step.Inspect? && step.a == a && s.workers[a].snapshot.replyAt.Some?
                && Recovered(s.workers[a].snapshot, s.now).Some?)
  {
    OnlyClaimsAddWorkers(s, step);
    if a in s.workers {
      OthersStay(s, step, a);
      assert ReplyWorkerInv(s, a, s.workers[a]);
      if step.OfWorker() && step.a == a { ActorGetsReply(s, step); }
    }
  }

  lemma ActorGetsReply(s: System, step: Step)
    requires Enabled(s, step) && step.OfWorker() && ReplyWorkerInv(s, step.a, s.workers[step.a])
    requires Moved(s, step).pc.Sending? || Moved(s, step).pc.Sent?
    ensures s.workers[step.a].pc.Sending? || s.workers[step.a].pc.Sent? || step.MarkReply?
            || (step.Inspect? && s.workers[step.a].snapshot.replyAt.Some?
                && Recovered(s.workers[step.a].snapshot, s.now).Some?)
  {
    if !Replies(step) { ActorMoves(s, step); }
  }

  lemma StepKeepsWindow(s: System, step: Step)
    requires Enabled(s, step) && TimingInv(s)
    ensures WindowInv(After(s, step))
  {
    var after := After(s, step);
    StepKeepsReplyRow(s, step);
    forall a | MaySend(after, a) ensures InWindow(after, a) {
      if !MaySend(s, a) {
        NewSenders(s, step, a);
        if step.Inspect? { InspectionBoundsClaim(s, a); } else { MarkerIsInWindow(s, step); }
      }
    }
  }

  lemma StepKeepsSendWindow(s: System, step: Step)
    requires Enabled(s, step) && TimingInv(s)
    ensures SendWindowInv(After(s, step))
  {
    var after := After(s, step);
    StepKeepsReplyRow(s, step);
    SendsGrow(s, step);
    forall i | 0 <= i < |after.sends| ensures InWindow(after, after.sends[i].attempt) {
      if i < |s.sends| {
        assert after.sends[i] == s.sends[i] && InWindow(s, s.sends[i].attempt);
      } else {
        assert MaySend(s, step.a) && InWindow(s, step.a);
      }
    }
  }

  lemma TimingAlways(states: seq<System>, steps: seq<Step>, i: nat)
    requires IsRun(states, steps) && AllPrompt(states, steps) && i < |states|
    ensures TimingInv(states[i])
  {
    if i > 0 {
      TimingAlways(states, steps, i - 1);
      var s, step := states[i - 1], steps[i - 1];
      assert states[i - 1 + 1] == After(s, step);
      StepKeepsTiming(s, step);
    }
  }

  lemma StepKeepsTiming(s: System, step: Step)
    requires Enabled(s, step) && Prompt(s, step) && TimingInv(s)
    ensures TimingInv(After(s, step))
  {
    StepKeepsSafety(s, step);
    StepKeepsLease(s, step);
    StepKeepsFloor(s, step);
    StepKeepsWindow(s, step);
    StepKeepsSendWindow(s, step);
  }

  /** Distinct numbers inside `[low, low + size)` are at most `size` many. */
  lemma {:induction false} DistinctFit(attempts: seq<nat>, low: nat, size: nat)
    requires forall i :: 0 <= i < |attempts| ==> low <= attempts[i] < low + size
    requires forall i, j :: 0 <= i < j < |attempts| ==> attempts[i] != attempts[j]
    ensures |attempts| <= size
    decreases size
  {
    if |attempts| == 0 {
      return;
    }
    assert low <= attempts[0] < low + size;
    if exists k :: 0 <= k < |attempts| && attempts[k] == low + size - 1 {
      var k :| 0 <= k < |attempts| && attempts[k] == low + size - 1;
      var rest := attempts[..k] + attempts[k + 1..];
      forall i | 0 <= i < |rest| ensures low <= rest[i] < low + (size - 1) {
        assert rest[i] == if i < k then attempts[i] else attempts[i + 1];
      }
      forall i, j | 0 <= i < j < |rest| ensures rest[i] != rest[j] {
        assert rest[i] == if i < k then attempts[i] else attempts[i + 1];
        assert rest[j] == if j < k then attempts[j] else attempts[j + 1];
      }
      DistinctFit(rest, low, size - 1);
    } else {
      DistinctFit(attempts, low, size - 1);
    }
  }

  /** A message's reply is sent at most fifteen times, however many claims crash, lose
    * their lease or fail to send, and however the claims that precede the reply went, if no
    * claim commits more than `CLAIM_DELAY` after its lease was computed. */
  lemma AtMostFifteenSends(states: seq<System>, steps: seq<Step>, i: nat)
    requires IsRun(states, steps) && AllPrompt(states, steps) && i < |states|
    ensures |states[i].sends| <= MAX_SENDS
  {
    TimingAlways(states, steps, i);
    var s := states[i];
    if |s.sends| > 0 {
      var attempts: seq<nat> := seq(|s.sends|, k requires 0 <= k < |s.sends| => s.sends[k].attempt);
      assert s.sends[0].attempt >= s.marks[0].attempt;
      DistinctFit(attempts, s.marks[0].attempt, MAX_SENDS);
    }
  }
}
