/** The bound of fifteen sends is exact in its assumption: with claims that commit one
  * millisecond later a reply can be sent a sixteenth time, every claim keeping its deadline. */
module LateClaims {
  import opened Records
  import opened MessageProtocol
  import opened MessageTiming
  import P = ProgressReply

  const TEXT := "reply"
  const FIXED_AT := LEASE
  const SHORT_REST := LEASE_REST - 1

  /** The processing deadline of a claim. */
  const DEADLINE := 900_000

  /** The claim is at most one millisecond past the bound, and a worker acts inside its deadline. */
  predicate Plausible(s: System, step: Step)
    requires Enabled(s, step)
  {
    && (step.Claim? ==> s.now - step.computedAt <= CLAIM_DELAY + 1)
    && (step.OfWorker() ==> s.now - s.workers[step.a].claimedAt < DEADLINE)
  }

  /** A run of such steps. */
  ghost predicate BarelyLate(states: seq<System>, steps: seq<Step>) {
    IsRun(states, steps) && forall i {:trigger steps[i]} :: 0 <= i < |steps| ==> Plausible(states[i], steps[i])
  }

  lemma Extend(states: seq<System>, steps: seq<Step>, step: Step) returns (longer: seq<System>, taken: seq<Step>)
    requires BarelyLate(states, steps) && Enabled(states[|steps|], step) && Plausible(states[|steps|], step)
    ensures BarelyLate(longer, taken) && longer[|taken|] == After(states[|steps|], step)
  {
    RunExtends(states, steps, step);
    longer, taken := states + [After(states[|steps|], step)], steps + [step];
    forall i | 0 <= i < |taken| ensures Plausible(longer[i], taken[i]) {
      if i < |steps| { assert taken[i] == steps[i] && longer[i] == states[i]; }
    }
  }

  predicate Fixed(s: System, row: Event) {
    && row.replyAt == Some(FIXED_AT) && row.replyKey == Some(s.id)
    && row.outcome.Some? && row.outcome.value.text == Some(TEXT) && row.outcome.value.kind == Some(Rich)
  }

  /** `n` sends are over and the message waits for its next claim, which is due. */
  predicate Waits(s: System, n: nat, t: Instant) {
    && s.now == t && s.row.status.Queued? && s.row.nextAttemptAt <= t && s.row.attempts == n
    && Fixed(s, s.row) && |s.sends| == n
  }

  /** Claim `n` has just made send number `n`. */
  predicate HasSent(s: System, n: nat, t: Instant, leasedUntil: Instant) {
    && s.now == t && s.row.OwnedBy(n) && s.row.leasedUntil == Some(leasedUntil)
    && Fixed(s, s.row) && |s.sends| == n
    && n in s.workers && s.workers[n].pc.Sent? && s.workers[n].snapshot.replyAt.Some? && s.workers[n].claimedAt == t
  }

  lemma SendAgain(states: seq<System>, steps: seq<Step>, n: nat, t: Instant, delay: nat)
    returns (longer: seq<System>, taken: seq<Step>)
    requires BarelyLate(states, steps) && Waits(states[|steps|], n, t) && delay <= CLAIM_DELAY + 1
    requires t < FIXED_AT + REPLY_WINDOW
    ensures BarelyLate(longer, taken) && HasSent(longer[|taken|], n + 1, t, t - delay + LEASE)
  {
    longer, taken := Extend(states, steps, Claim(t - delay));
    longer, taken := Extend(longer, taken, Inspect(n + 1));
    longer, taken := Extend(longer, taken, SendReply(n + 1));
  }

  /** The send fails, and the claim backs off. */
  lemma BackOff(states: seq<System>, steps: seq<Step>, n: nat, t: Instant, leasedUntil: Instant)
    returns (longer: seq<System>, taken: seq<Step>)
    requires BarelyLate(states, steps) && HasSent(states[|steps|], n, t, leasedUntil) && n >= 1
    ensures BarelyLate(longer, taken) && Waits(longer[|taken|], n, t + Backoff(n))
  {
    PauseGrows(n, n);
    longer, taken := Extend(states, steps, Release(n, false, "reply_failed", t, t));
    longer, taken := Extend(longer, taken, Tick(Backoff(n)));
  }

  /** The claim stalls until its short lease has passed. */
  lemma Stall(states: seq<System>, steps: seq<Step>, n: nat, t: Instant, leasedUntil: Instant)
    returns (longer: seq<System>, taken: seq<Step>)
    requires BarelyLate(states, steps) && HasSent(states[|steps|], n, t, leasedUntil) && t <= leasedUntil
    ensures BarelyLate(longer, taken) && Waits(longer[|taken|], n, leasedUntil)
  {
    longer, taken := Extend(states, steps, Tick(leasedUntil - t));
    longer, taken := Extend(longer, taken, Recover(leasedUntil, leasedUntil));
  }

  /** Claim 1 commits as late as any, and runs to `pc` at instant `t`. */
  predicate FirstClaim(s: System, t: Instant, pc: Pc) {
    && s.now == t && s.row.OwnedBy(1) && s.row.leasedUntil == Some(LEASE) && |s.sends| == 0 && |s.marks| == 0
    && 1 in s.workers && s.workers[1].pc == pc && s.workers[1].claimedAt == CLAIM_DELAY + 1
  }

  lemma ReachAgent() returns (states: seq<System>, steps: seq<Step>)
    ensures BarelyLate(states, steps) && FirstClaim(states[|steps|], CLAIM_DELAY + 1, AgentRunning)
    ensures states[|steps|].workers[1].progress == P.State(false, P.Asked, P.NotSent, false, [])
  {
    states, steps := [Start(1, 7, false, 0)], [];
    states, steps := Extend(states, steps, Tick(CLAIM_DELAY + 1));
    states, steps := Extend(states, steps, Claim(0));
    states, steps := Extend(states, steps, Inspect(1));
    states, steps := Extend(states, steps, Compose(1, ""));
  }

  lemma ReachReply() returns (states: seq<System>, steps: seq<Step>)
    ensures BarelyLate(states, steps) && FirstClaim(states[|steps|], CLAIM_DELAY + 1, Settling(TEXT, Rich, 0))
    ensures states[|steps|].workers[1].progress == P.State(false, P.Asked, P.NotSent, false, [P.Called])
  {
    states, steps := ReachAgent();
    states, steps := Extend(states, steps, AgentReplies(1, TEXT));
  }

  lemma ReachSettled() returns (states: seq<System>, steps: seq<Step>)
    ensures BarelyLate(states, steps) && FirstClaim(states[|steps|], CLAIM_DELAY + 1, Settling(TEXT, Rich, 0))
    ensures states[|steps|].workers[1].progress.calls == [P.Returned]
  {
    states, steps := ReachReply();
    states, steps := Extend(states, steps, Progress(1, P.SettleTicks(0), 0));
    states, steps := Extend(states, steps, Progress(1, P.SettleReturns(0), 0));
  }

  lemma ReachMarking() returns (states: seq<System>, steps: seq<Step>)
    ensures BarelyLate(states, steps) && FirstClaim(states[|steps|], FIXED_AT, Marking(TEXT, Rich, FIXED_AT))
  {
    states, steps := ReachSettled();
    states, steps := Extend(states, steps, Tick(SHORT_REST));
    states, steps := Extend(states, steps, Settle(1));
  }

  /** The first claim fixes and sends its reply at the very end of its lease. */
  lemma ReachFirstSend() returns (states: seq<System>, steps: seq<Step>)
    ensures BarelyLate(states, steps) && Waits(states[|steps|], 1, FIXED_AT)
  {
    states, steps := ReachMarking();
    states, steps := Extend(states, steps, MarkReply(1));
    states, steps := Extend(states, steps, SendReply(1));
    states, steps := Extend(states, steps, Recover(FIXED_AT, FIXED_AT));
  }

  /** When claim `n + 1` starts. */
  function NextClaim(n: nat): Instant
    requires n >= 1
  {
    if n == 1 then FIXED_AT else NextClaim(n - 1) + if n <= 4 then Backoff(n) else SHORT_REST
  }

  lemma {:induction false} NextClaimValues(n: nat)
    requires n >= 4
    ensures NextClaim(n) == FIXED_AT + 420_000 + (n - 4) * SHORT_REST
  {
    BackoffValues();
    if n > 4 {
      NextClaimValues(n - 1);
    } else {
      assert NextClaim(2) == FIXED_AT + 60_000 && NextClaim(3) == FIXED_AT + 180_000;
    }
  }

  lemma NextClaimInWindow(n: nat)
    requires 1 <= n <= 15
    ensures NextClaim(n) < FIXED_AT + REPLY_WINDOW
  {
    BackoffValues();
    if n >= 4 {
      NextClaimValues(n);
      assert (n - 4) * SHORT_REST <= 11 * SHORT_REST;
    } else {
      assert NextClaim(2) == FIXED_AT + 60_000 && NextClaim(3) == FIXED_AT + 180_000;
    }
  }

  lemma ReachSends(n: nat) returns (states: seq<System>, steps: seq<Step>)
    requires 1 <= n <= 15
    ensures BarelyLate(states, steps) && Waits(states[|steps|], n, NextClaim(n))
  {
    if n == 1 {
      states, steps := ReachFirstSend();
    } else {
      states, steps := ReachSends(n - 1);
      NextClaimInWindow(n - 1);
      var t := NextClaim(n - 1);
      var delay := if n <= 4 then 0 else CLAIM_DELAY + 1;
      states, steps := SendAgain(states, steps, n - 1, t, delay);
      if n <= 4 {
        states, steps := BackOff(states, steps, n, t, t - delay + LEASE);
      } else {
        states, steps := Stall(states, steps, n, t, t - delay + LEASE);
      }
    }
  }

  lemma SixteenthSend() returns (states: seq<System>, steps: seq<Step>)
    ensures BarelyLate(states, steps) && |states[|steps|].sends| == MAX_SENDS + 1
  {
    states, steps := ReachSends(15);
    NextClaimInWindow(15);
    states, steps := SendAgain(states, steps, 15, NextClaim(15), 0);
  }
}
