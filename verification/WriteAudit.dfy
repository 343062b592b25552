/** `createWriteAudit`: every external write of an agent run is preceded by a committed mark
  * and leaves a receipt that claims no more than what is known. */
module WriteAudit {
  import opened Records
  import opened EventStore

  datatype Verdict = Unknown | Succeeded | Failed

  /** The `beginWrite` call: answered in time, or abandoned and then committed or lost. */
  datatype Begin = Answered | Late | Lost

  datatype Operation = Works | Breaks

  /** What the caller of the audit sees. */
  datatype Result = Returned | Unavailable | Rethrown

  class WriteAudit {
    const store: EventStore
    const event: EventId
    const attempt: nat
    var crossed: bool
    var receipts: seq<Verdict>
    var log: seq<Option<Verdict>>
    ghost var performed: nat

    /** Operations are never ahead of receipts, nor receipts of logged marks; a receipt
      * exists only once the boundary was crossed. */
    ghost predicate Valid()
      reads this
    {
      performed <= |receipts| <= |log| && (receipts != [] ==> crossed)
    }

    constructor (store: EventStore, event: EventId, attempt: nat)
      ensures Valid() && this.store == store && this.event == event && this.attempt == attempt
      ensures !crossed && receipts == [] && performed == 0
    {
      this.store, this.event, this.attempt := store, event, attempt;
      crossed, receipts, log, performed := false, [], [], 0;
    }

    method MarkStarted(now: Instant) returns (marked: bool)
      requires Valid()
      modifies this, store.db
      ensures Valid() && receipts == old(receipts) && crossed == old(crossed) && performed == old(performed)
      ensures marked == old(store.Owns(event, attempt))
      ensures marked ==> event in store.db.events && store.db.events[event].writeStartedAt.Some?
      ensures marked ==> log == old(log) + [None]
      ensures !marked ==> log == old(log) && store.db.Contents() == old(store.db.Contents())
    {
      marked := store.BeginWrite(event, attempt, now);
      if marked { log := log + [None]; }
    }

    /** `finishWrite` of the last logged mark, when the call gets through. */
    method Record(verdict: Verdict, recorded: bool)
      requires Valid() && log != []
      modifies this
      ensures Valid() && receipts == old(receipts) && crossed == old(crossed) && performed == old(performed)
      ensures log == old(log)[|old(log)| - 1 := if recorded then Some(verdict) else old(log)[|old(log)| - 1]]
    {
      if recorded { log := log[|log| - 1 := Some(verdict)]; }
    }

    /** One write. `abortedBefore` and `abortedAfter` tell when the run was aborted, `recorded`
      * whether `finishWrite` gets through. */
    method Run(begin: Begin, abortedBefore: bool, operation: Operation, abortedAfter: bool, recorded: bool, now: Instant)
      returns (result: Result)
      requires Valid()
      modifies this, store.db
      ensures Valid() && old(performed) <= performed <= old(performed) + 1
      // no operation without a mark in the row of the claim that still owned it
      ensures performed > old(performed) ==>
                && old(store.Owns(event, attempt)) && begin.Answered? && !abortedBefore
                && event in store.db.events && store.db.events[event].writeStartedAt.Some?
      // a receipt exactly for a mark that was answered, and then the boundary is crossed
      ensures receipts == if begin.Answered? && old(store.Owns(event, attempt)) then old(receipts) + [Last()] else old(receipts)
      ensures crossed == (old(crossed) || |receipts| > |old(receipts)|)
      // what receipt and log may say
      ensures |receipts| > |old(receipts)| ==>
                && (Last().Succeeded? <==> performed > old(performed) && operation.Works? && recorded)
                && (Last().Failed? <==> performed > old(performed) && operation.Breaks? && !abortedAfter && recorded)
                && |log| == |old(log)| + 1
                && log[|log| - 1] == if recorded then Some(Last()) else None
      ensures result.Returned? <==> |receipts| > |old(receipts)| && Last().Succeeded?
      // a mark without an answer is logged as unknown, and the run learns nothing of it
      ensures begin.Late? && old(store.Owns(event, attempt)) ==>
                |log| == |old(log)| + 1 && log[|log| - 1] == if recorded then Some(Unknown) else None
    {
      if begin.Lost? { return Unavailable; }
      var marked := MarkStarted(now);
      if !marked { return Unavailable; }
      if begin.Late? {
        Record(Unknown, recorded);
        return Unavailable;
      }
      crossed := true;
      receipts := receipts + [Unknown];
      var broken := abortedBefore;
      if !abortedBefore {
        performed := performed + 1;
        broken := operation.Breaks?;
      }
      var aborted := abortedBefore || abortedAfter;
      var verdict := if !broken then Succeeded else if aborted then Unknown else Verdict.Failed;
      Record(verdict, recorded);
      if !recorded { return Unavailable; }
      receipts := receipts[|receipts| - 1 := verdict];
      result := if broken then Rethrown else Returned;
    }

    ghost function Last(): Verdict
      reads this
    {
      if receipts == [] then Unknown else receipts[|receipts| - 1]
    }
  }
}
