/** The rows of the four tables that carry Minori's durable work, as values.
  *
  * Instants are milliseconds. Identifiers are integers; event identifiers are
  * ordered as the text identifiers of the source are. Columns that no
  * transaction reads back for a decision are left out.
  */
module Records {
  datatype Option<+T> = None | Some(value: T)

  type Instant = int
  type EventId = int
  type RunId = int
  type TaskId = int
  type ChatId = int

  function Max(a: int, b: int): int { if a < b then b else a }

  function Min(a: int, b: int): int { if a < b then a else b }

  // ---------- processed_events ----------

  datatype EventStatus = Queued | Processing | Completed | Failed

  datatype ReplyKind = Rich | Control

  /** The JSON column `outcome`; a missing key is `None`. */
  datatype Outcome = Outcome(
    replyMessage: Option<string>,
    errorCode: Option<string>,
    text: Option<string>,
    kind: Option<ReplyKind>)

  /** A reply fixed before it is sent. The key stands for the hash of the event identifier. */
  datatype Reply = Reply(key: EventId, text: string, kind: ReplyKind)

  datatype Event = Event(
    conversation: ChatId,
    unsupported: bool,
    receivedAt: Instant,
    status: EventStatus,
    attempts: nat,
    nextAttemptAt: Instant,
    leasedUntil: Option<Instant>,
    reaction: Option<string>,
    progressAt: Option<Instant>,
    progressMessage: Option<string>,
    writeStartedAt: Option<Instant>,
    replyKey: Option<EventId>,
    replyAt: Option<Instant>,
    outcome: Option<Outcome>)
  {
    predicate Active() { status.Queued? || status.Processing? }

    predicate OwnedBy(attempt: nat) { status.Processing? && attempts == attempt }
  }

  /** The order in which a conversation's events are ranked. */
  predicate Before(a: EventId, ea: Event, b: EventId, eb: Event) {
    ea.receivedAt < eb.receivedAt || (ea.receivedAt == eb.receivedAt && a < b)
  }

  // ---------- scheduled_tasks, scheduled_task_revisions, scheduled_runs ----------

  datatype ChatType = Group | Private

  datatype Schedule =
    | Once(at: Instant, timezone: string)
    | Cron(expression: string, timezone: string)

  datatype Target = Target(chat: ChatId, displayName: string, chatType: ChatType)

  datatype Context = Context(chat: ChatId, displayName: string)

  datatype TaskState = Active | Paused | InFlight | Done | Deleted

  datatype Task = Task(
    name: string,
    version: nat,
    schedule: Schedule,
    target: Target,
    context: Option<Context>,
    state: TaskState,
    nameReserved: bool,
    nextDueAt: Option<Instant>,
    latestMissedAt: Option<Instant>)

  datatype Revision = Revision(
    instruction: string,
    schedule: Schedule,
    target: Target,
    context: Option<Context>)

  datatype RunStatus = Queued | Processing | Completed | Failed | Cancelled | DeliveryUncertain

  datatype Run = Run(
    task: TaskId,
    scheduledFor: Instant,
    createdAt: Instant,
    version: nat,
    instruction: string,
    target: Target,
    context: Option<Context>,
    status: RunStatus,
    claimAttempt: nat,
    leasedUntil: Option<Instant>,
    writeStartedAt: Option<Instant>,
    preparedText: Option<string>,
    deliveryAt: Option<Instant>,
    deliveryMessage: Option<string>,
    fallbackAt: Option<Instant>,
    category: Option<string>)
  {
    predicate Active() { status.Queued? || status.Processing? }

    predicate OwnedBy(attempt: nat) { status.Processing? && claimAttempt == attempt }
  }

  /** A context read back through `mapTask`: an empty display name drops it. */
  function ReadContext(c: Option<Context>): Option<Context> {
    if c.Some? && c.value.displayName != "" then c else None
  }

  predicate Named(c: Option<Context>) { c.Some? ==> c.value.displayName != "" }
}
