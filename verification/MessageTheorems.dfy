/** What the worker protocol promises about one message, over every run. */
module MessageTheorems {
  import opened Records
  import opened MessageProtocol
  import opened MessageSafety

  ghost predicate SafetyInv(s: System) {
    ClaimsInv(s) && WriteInv(s) && WriteLogInv(s) && ReplyInv(s) && SendsInv(s) && ProgressInv(s) && ReactionInv(s)
  }

  lemma StepKeepsSafety(s: System, step: Step)
    requires Enabled(s, step) && SafetyInv(s)
    ensures SafetyInv(After(s, step))
  {
    StepKeepsClaims(s, step);
    StepKeepsWrites(s, step);
    StepKeepsWriteLog(s, step);
    StepKeepsReply(s, step);
    StepKeepsSends(s, step);
    StepKeepsProgress(s, step);
    StepKeepsReaction(s, step);
  }

  lemma SafetyAlways(states: seq<System>, steps: seq<Step>, i: nat)
    requires IsRun(states, steps) && i < |states|
    ensures SafetyInv(states[i])
  {
    if i > 0 {
      SafetyAlways(states, steps, i - 1);
      assert states[i - 1 + 1] == After(states[i - 1], steps[i - 1]);
      StepKeepsSafety(states[i - 1], steps[i - 1]);
    }
  }

  /** Every external write of a message was made by one and the same claim. */
  lemma WritesComeFromOneClaim(states: seq<System>, steps: seq<Step>, i: nat, x: nat, y: nat)
    requires IsRun(states, steps) && i < |states|
    requires x < |states[i].writes| && y < |states[i].writes|
    ensures states[i].writes[x] == states[i].writes[y]
  {
    SafetyAlways(states, steps, i);
  }

  /** Once a claim has written, or only committed the mark that precedes a write, no later
    * claim runs the agent: neither before nor after the write became visible. */
  lemma NoReplayAfterWrite(states: seq<System>, steps: seq<Step>, i: nat, x: nat)
    requires IsRun(states, steps) && i < |states|
    requires states[i].boundary.Some? && x < |states[i].agentRuns|
    ensures states[i].agentRuns[x] <= states[i].boundary.value
    ensures forall y :: 0 <= y < |states[i].writes| ==> states[i].agentRuns[x] <= states[i].writes[y]
  {
    SafetyAlways(states, steps, i);
    var a := states[i].agentRuns[x];
    assert WriteWorkerInv(states[i], a, states[i].workers[a]);
  }

  /** A transport that delivers a message only if its key is new. */
  function Delivered(sends: seq<Send>): seq<Reply> {
    if sends == [] then []
    else
      var before := Delivered(sends[..|sends| - 1]);
      var reply := sends[|sends| - 1].reply;
      if exists k :: 0 <= k < |before| && before[k].key == reply.key then before else before + [reply]
  }

  lemma {:induction false} EqualSendsDeliverOnce(sends: seq<Send>, reply: Reply)
    requires forall k :: 0 <= k < |sends| ==> sends[k].reply == reply
    ensures Delivered(sends) == if sends == [] then [] else [reply]
  {
    if sends != [] {
      EqualSendsDeliverOnce(sends[..|sends| - 1], reply);
      if |sends| > 1 { assert Delivered(sends[..|sends| - 1])[0].key == reply.key; }
    }
  }

  /** `markReplyStarted` takes effect at most once, every send of the message carries the
    * same key, text and kind, whichever workers make it, and so a transport that
    * deduplicates by key delivers at most one reply. */
  lemma RepliesOnce(states: seq<System>, steps: seq<Step>, i: nat)
    requires IsRun(states, steps) && i < |states|
    ensures |states[i].marks| <= 1
    ensures forall x, y :: 0 <= x < |states[i].sends| && 0 <= y < |states[i].sends|
                           ==> states[i].sends[x].reply == states[i].sends[y].reply
    ensures forall x :: 0 <= x < |states[i].sends| ==> states[i].sends[x].reply.key == states[i].id
    ensures |Delivered(states[i].sends)| <= 1
  {
    SafetyAlways(states, steps, i);
    var s := states[i];
    forall x | 0 <= x < |s.sends| ensures SendAgrees(s, s.sends[x]) {}
    if |s.sends| > 0 {
      assert SendAgrees(s, s.sends[0]);
      EqualSendsDeliverOnce(s.sends, s.marks[0].reply);
    }
  }

  lemma MarkStays(s: System, step: Step)
    requires Enabled(s, step) && SafetyInv(s) && |s.marks| == 1
    ensures After(s, step).marks == s.marks
  {
    StepKeepsReplyRow(s, step);
  }

  lemma MarkIsCarried(s: System)
    requires SafetyInv(s) && |s.marks| == 1
    ensures s.row.Active() ==> Carries(s.row.outcome, s.marks[0].reply)
  {
  }

  /** What was fixed before the first send is what every later claim finds. */
  lemma FixedReplyIsKept(states: seq<System>, steps: seq<Step>, i: nat, j: nat)
    requires IsRun(states, steps) && i <= j < |states| && |states[i].marks| == 1
    ensures states[j].marks == states[i].marks
    ensures states[j].row.Active() ==> Carries(states[j].row.outcome, states[i].marks[0].reply)
  {
    if i < j {
      var k: nat := j - 1;
      FixedReplyIsKept(states, steps, i, k);
      SafetyAlways(states, steps, k);
      assert states[k + 1] == After(states[k], steps[k]);
      MarkStays(states[k], steps[k]);
    }
    SafetyAlways(states, steps, j);
    MarkIsCarried(states[j]);
  }

  /** At most one progress message per message, over all claims, and never while the reply
    * of the same claim is being sent. */
  lemma ProgressOnceAndBeforeReply(states: seq<System>, steps: seq<Step>, i: nat)
    requires IsRun(states, steps) && i < |states|
    ensures |states[i].progressSends| <= 1
    ensures forall a :: a in states[i].workers && (states[i].workers[a].pc.Sending? || states[i].workers[a].pc.Sent?)
                        ==> !states[i].workers[a].progress.delivery.Sending?
  {
    SafetyAlways(states, steps, i);
    forall a | a in states[i].workers && (states[i].workers[a].pc.Sending? || states[i].workers[a].pc.Sent?)
      ensures !states[i].workers[a].progress.delivery.Sending?
    {
      assert ProgressWorkerInv(states[i], a, states[i].workers[a]);
    }
  }

  /** A reaction that was added is in exactly one place: waiting to be attached, stored in
    * an active row, or handed to one remover, whoever wins the race. */
  lemma ReactionIsConserved(states: seq<System>, steps: seq<Step>, i: nat)
    requires IsRun(states, steps) && i < |states| && states[i].added.Some?
    ensures var s := states[i];
            || (s.gateway == Holding(s.added.value) && s.row.reaction.None? && s.handed == [])
            || (s.row.reaction == s.added && s.row.Active() && !s.gateway.Holding? && s.handed == [])
            || (|s.handed| == 1 && s.handed[0].reaction == s.added.value && s.row.reaction.None?
                && !s.gateway.Holding?)
  {
    SafetyAlways(states, steps, i);
  }
}
