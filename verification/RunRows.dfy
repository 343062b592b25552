/** What one store call does to one row of `scheduled_runs`. */
module RunRows {
  import opened Records

  datatype Call =
    | ExtendLease(attempt: nat, leaseMs: int)
    | PrepareDelivery(attempt: nat, text: string)
    | MarkDelivered(attempt: nat, message: string)
    | BeginFallback(attempt: nat)
    | MarkWrite(attempt: nat)

  predicate Accepts(r: Run, call: Call, now: Instant) {
    match call
    case ExtendLease(a, _) => r.OwnedBy(a) && r.leasedUntil.Some? && now <= r.leasedUntil.value
    case PrepareDelivery(a, _) => r.OwnedBy(a) && r.deliveryAt.None?
    case MarkDelivered(a, _) => r.OwnedBy(a) && r.deliveryAt.Some? && r.deliveryMessage.None?
    case BeginFallback(a) => r.OwnedBy(a) && r.fallbackAt.None?
    case MarkWrite(a) => r.OwnedBy(a)
  }

  function Apply(r: Run, call: Call, now: Instant): Run
    requires Accepts(r, call, now)
  {
    match call
    case ExtendLease(_, leaseMs) => r.(leasedUntil := Some(now + leaseMs))
    case PrepareDelivery(_, text) => r.(preparedText := Some(text), deliveryAt := Some(now))
    case MarkDelivered(_, message) => r.(deliveryMessage := Some(message))
    case BeginFallback(_) => r.(fallbackAt := Some(now))
    case MarkWrite(_) =>
      r.(writeStartedAt := if r.writeStartedAt.Some? then r.writeStartedAt else Some(now))
  }

  function Claim(r: Run, leaseUntil: Instant): Run {
    r.(status := RunStatus.Processing, claimAttempt := r.claimAttempt + 1, leasedUntil := Some(leaseUntil))
  }

  predicate Outcome(status: RunStatus) {
    status.Completed? || status.Failed? || status.DeliveryUncertain?
  }

  function Finish(r: Run, outcome: RunStatus, category: Option<string>): Run {
    r.(status := outcome, category := category, leasedUntil := None)
  }

  predicate Expired(r: Run, now: Instant) {
    r.status.Processing? && r.leasedUntil.Some? && r.leasedUntil.value < now
  }

  function Expire(r: Run): Run {
    Finish(r, RunStatus.Failed, Some("scheduled_run_claim_expired"))
  }

  function Cancel(r: Run): Run {
    r.(status := RunStatus.Cancelled)
  }

  function Rebind(r: Run, version: nat, instruction: string, target: Target, context: Option<Context>): Run {
    r.(status := RunStatus.Queued, version := version, instruction := instruction, target := target,
    context := context, claimAttempt := 0, leasedUntil := None)
  }
}
