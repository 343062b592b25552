/** Two date columns stand for the whole backlog of missed occurrences of a task.
  *
  * The ledger keeps every occurrence: it is what the columns would be if nothing were
  * folded. A poll of the real row is a dispatch of the ledger. */
module Folding {
  import opened Records
  import opened Tables
  import opened Dispatcher
  import Protocol

  /** The occurrences after `base`: pending, ran, or superseded by a later one that ran.
    * `carried` is one that was missed at or before `base` and is still owed a run. */
  datatype Ledger = Ledger(
    base: Instant,
    carried: Option<Instant>,
    last: Instant,
    pending: set<Instant>,
    ran: seq<Instant>,
    superseded: set<Instant>)

  function Newest(l: Ledger): Instant
    requires l.ran != []
  {
    l.ran[|l.ran| - 1]
  }

  function LastRun(l: Ledger): Instant { if l.ran == [] then l.base else Max(l.base, Newest(l)) }

  /** The carried occurrence while it waits: the first run settles it. */
  function Held(l: Ledger): set<Instant> {
    if l.ran == [] && l.carried.Some? then {l.carried.value} else {}
  }

  /** The ledger as a mutation at `base` leaves it. */
  function NewLedger(base: Instant, carried: Option<Instant>): Ledger {
    Ledger(base, carried, base, if carried.Some? then {carried.value} else {}, [], {})
  }

  ghost function Arrived(next: Calendar, after: Instant, through: Instant): set<Instant> {
    set o | after < o <= through && Occurs(next, o)
  }

  ghost predicate IsMax(s: set<Instant>, m: Instant) { m in s && forall o :: o in s ==> o <= m }

  ghost function Due(l: Ledger, next: Calendar, now: Instant): set<Instant> {
    l.pending + Arrived(next, l.last, now)
  }

  /** One poll at `now`, on the full backlog: if the task is idle its latest occurrence
    * runs and the others are given up; if it is busy everything waits. */
  ghost predicate Dispatched(l: Ledger, l': Ledger, next: Calendar, now: Instant, busy: bool) {
    var due := Due(l, next, now);
    && l'.base == l.base && l'.carried == l.carried && l'.last == now
    && if busy || due == {} then l'.pending == due && l'.ran == l.ran && l'.superseded == l.superseded
       else && l'.pending == {}
            && |l'.ran| == |l.ran| + 1 && l'.ran[..|l.ran|] == l.ran && IsMax(due, Newest(l'))
            && l'.superseded == l.superseded + (due - {Newest(l')})
  }

  /** The occurrences the ledger is about. */
  ghost predicate InStory(l: Ledger, next: Calendar, o: Instant) {
    l.carried == Some(o) || (l.base < o && Occurs(next, o))
  }

  /** Up to the last run everything in the story was decided, the carried one by the first run. */
  ghost predicate Decided(l: Ledger, next: Calendar, o: Instant) {
    InStory(l, next, o) && l.ran != [] && o <= LastRun(l)
  }

  ghost predicate LedgerInv(l: Ledger, next: Calendar) {
    && l.base <= LastRun(l) <= l.last
    && (l.carried.Some? ==> l.carried.value <= l.base)
    && l.pending == Held(l) + Arrived(next, LastRun(l), l.last)
    && (forall o :: o in l.ran ==> InStory(l, next, o))
    && (forall i, j :: 0 <= i < j < |l.ran| ==> l.ran[i] < l.ran[j])
    && (forall o :: Decided(l, next, o) ==> (o in l.ran <==> o !in l.superseded))
    && (forall o :: o in l.superseded ==> InStory(l, next, o) && l.ran != [] && o < Newest(l))
  }

  /** The columns of the row say what the ledger says. */
  ghost predicate Represents(db: Db, task: TaskId, l: Ledger, next: Calendar) {
    && task in db.tasks
    && var t := db.tasks[task];
       && t.state.Active? && t.schedule.Cron?
       && t.nextDueAt == Some(next(l.last))
       && (if l.pending == {} then t.latestMissedAt.None?
           else t.latestMissedAt.Some? && IsMax(l.pending, t.latestMissedAt.value))
       && Instruction(db, task, t.version).Some? && Instruction(db, task, t.version).value != ""
       && RunsAre(db, task, l)
  }

  /** The runs of the task since `base` are exactly the occurrences that ran, and what waits
    * from before has none. */
  ghost predicate RunsAre(db: Db, task: TaskId, l: Ledger) {
    && (forall r :: r in db.runs && db.runs[r].task == task ==>
          db.runs[r].scheduledFor <= l.base || db.runs[r].scheduledFor in l.ran)
    && (forall k :: 0 <= k < |l.ran| ==> OccurrenceTaken(db, task, l.ran[k]))
    && (forall o :: o in Held(l) ==> !OccurrenceTaken(db, task, o))
  }

  // ---------- the ledger by itself ----------

  lemma DueIsEverythingSinceLastRun(l: Ledger, next: Calendar, now: Instant)
    requires LedgerInv(l, next) && l.last <= now
    ensures Due(l, next, now) == Held(l) + Arrived(next, LastRun(l), now)
  {
  }

  lemma RanIsBounded(l: Ledger, next: Calendar)
    requires LedgerInv(l, next)
    ensures forall o :: o in l.ran ==> o <= Newest(l) <= LastRun(l)
  {
  }

  /** What runs next lies after everything that ran. */
  lemma NextRunIsNewer(l: Ledger, next: Calendar, now: Instant, at: Instant)
    requires LedgerInv(l, next) && l.last <= now && IsMax(Due(l, next, now), at)
    ensures InStory(l, next, at) && at <= now && (forall o :: o in l.ran ==> o < at)
    ensures LastRun(l) < at || (at in Held(l) && Arrived(next, LastRun(l), now) == {})
  {
    DueIsEverythingSinceLastRun(l, next, now);
    RanIsBounded(l, next);
    assert forall o :: o in Arrived(next, LastRun(l), now) ==> o in Due(l, next, now);
  }

  lemma RunDecides(l: Ledger, l': Ledger, next: Calendar, now: Instant, o: Instant)
    requires LedgerInv(l, next) && l.last <= now && Dispatched(l, l', next, now, false) && Due(l, next, now) != {}
    requires Decided(l', next, o)
    ensures o in l'.ran <==> o !in l'.superseded
  {
    var at, due := Newest(l'), Due(l, next, now);
    NextRunIsNewer(l, next, now, at);
    DueIsEverythingSinceLastRun(l, next, now);
    assert l'.ran == l.ran + [at];
    assert o in l'.ran <==> o in l.ran || o == at;
    if o !in due {
      assert Decided(l, next, o);
    } else {
      RanIsBounded(l, next);
      assert o !in l.ran && o !in l.superseded;
    }
  }

  lemma RunSupersedes(l: Ledger, l': Ledger, next: Calendar, now: Instant, o: Instant)
    requires LedgerInv(l, next) && l.last <= now && Dispatched(l, l', next, now, false) && Due(l, next, now) != {}
    requires o in l'.superseded
    ensures InStory(l, next, o) && o < Newest(l')
  {
    NextRunIsNewer(l, next, now, Newest(l'));
    DueIsEverythingSinceLastRun(l, next, now);
    if o in l.superseded { assert Newest(l) in l.ran; }
  }

  lemma RunKeepsOrder(l: Ledger, at: Instant, next: Calendar)
    requires LedgerInv(l, next) && forall o :: o in l.ran ==> o < at
    ensures var ran := l.ran + [at]; forall i, j :: 0 <= i < j < |ran| ==> ran[i] < ran[j]
  {
    var ran := l.ran + [at];
    forall i, j | 0 <= i < j < |ran| ensures ran[i] < ran[j] {
      if j == |l.ran| { assert l.ran[i] in l.ran; }
    }
  }

  lemma RunSettlesPending(l: Ledger, l': Ledger, next: Calendar, now: Instant)
    requires LedgerInv(l, next) && l.last <= now && Dispatched(l, l', next, now, false) && Due(l, next, now) != {}
    ensures l'.pending == Held(l') + Arrived(next, LastRun(l'), now)
    ensures l'.base <= LastRun(l') <= l'.last
  {
    var at := Newest(l');
    NextRunIsNewer(l, next, now, at);
    DueIsEverythingSinceLastRun(l, next, now);
    assert forall o :: o in Arrived(next, LastRun(l), now) ==> o in Due(l, next, now);
    assert forall o :: o in Arrived(next, LastRun(l'), now) ==> o in Arrived(next, LastRun(l), now);
  }

  lemma RunKeepsLedger(l: Ledger, l': Ledger, next: Calendar, now: Instant)
    requires LedgerInv(l, next) && l.last <= now && Dispatched(l, l', next, now, false) && Due(l, next, now) != {}
    ensures LedgerInv(l', next)
  {
    var at := Newest(l');
    assert l'.ran == l.ran + [at];
    NextRunIsNewer(l, next, now, at);
    RunSettlesPending(l, l', next, now);
    RunKeepsOrder(l, at, next);
    forall o | Decided(l', next, o) ensures o in l'.ran <==> o !in l'.superseded { RunDecides(l, l', next, now, o); }
    forall o | o in l'.superseded ensures InStory(l', next, o) && o < Newest(l') { RunSupersedes(l, l', next, now, o); }
  }

  lemma WaitKeepsLedger(l: Ledger, l': Ledger, next: Calendar, now: Instant)
    requires LedgerInv(l, next) && l.last <= now
    requires l' == l.(last := now, pending := Due(l, next, now))
    ensures LedgerInv(l', next)
  {
    DueIsEverythingSinceLastRun(l, next, now);
    forall o | Decided(l', next, o) ensures o in l'.ran <==> o !in l'.superseded { assert Decided(l, next, o); }
    forall o | o in l'.superseded ensures InStory(l', next, o) { assert InStory(l, next, o); }
    forall o | o in l'.ran ensures InStory(l', next, o) { assert InStory(l, next, o); }
  }

  lemma DispatchKeepsLedger(l: Ledger, l': Ledger, next: Calendar, now: Instant, busy: bool)
    requires LedgerInv(l, next) && l.last <= now && Dispatched(l, l', next, now, busy)
    ensures LedgerInv(l', next)
  {
    if busy || Due(l, next, now) == {} {
      assert l' == l.(last := now, pending := Due(l, next, now));
      WaitKeepsLedger(l, l', next, now);
    } else {
      RunKeepsLedger(l, l', next, now);
    }
  }

  lemma NewLedgerIsSound(base: Instant, carried: Option<Instant>, next: Calendar)
    requires carried.Some? ==> carried.value <= base
    ensures LedgerInv(NewLedger(base, carried), next)
  {
  }

  /** Every occurrence so far, and the carried one, is exactly one of ran, superseded by a
    * later run, or pending. */
  lemma EveryOccurrenceAccounted(l: Ledger, next: Calendar, o: Instant)
    requires LedgerInv(l, next) && InStory(l, next, o) && o <= l.last
    ensures (if o in l.ran then 1 else 0) + (if o in l.superseded then 1 else 0) + (if o in l.pending then 1 else 0) == 1
    ensures o in l.superseded ==> exists k :: 0 <= k < |l.ran| && o < l.ran[k]
  {
    RanIsBounded(l, next);
    if l.ran != [] && o <= LastRun(l) { assert Decided(l, next, o); }
    if o in l.superseded { assert l.ran[|l.ran| - 1] == Newest(l); }
  }

  // ---------- the row follows the ledger ----------

  lemma NothingUntilNext(next: Calendar, last: Instant, now: Instant)
    requires Ideal(next) && last <= now < next(last)
    ensures Arrived(next, last, now) == {} && next(now) == next(last)
  {
    NextOccurs(next, last);
    assert Waiting(next, last, now);
  }

  lemma LatestOfArrived(next: Calendar, last: Instant, now: Instant)
    requires Ideal(next) && next(last) <= now
    ensures var latest := Latest(next, next(last) - 1, now);
            latest.Some? && IsMax(Arrived(next, last, now), latest.value)
  {
    LatestIsLast(next, next(last) - 1, now);
    NextOccurs(next, last);
    var latest := Latest(next, next(last) - 1, now);
    assert next(last) - 1 < next(last) <= now;
    assert latest.value in Arrived(next, last, now);
  }

  /** What the dispatcher finds due is the latest occurrence of the backlog. */
  lemma DueIsLatest(db: Db, task: TaskId, l: Ledger, next: Calendar, now: Instant)
    requires Ideal(next) && LedgerInv(l, next) && Represents(db, task, l, next) && l.last <= now
    ensures var backlog, t := Due(l, next, now), db.tasks[task];
            && (Dispatchable(t, now) <==> backlog != {})
            && (Dispatchable(t, now) ==>
                  var due := DueOccurrence(t, now, next);
                  due.Some? && IsMax(backlog, due.value.scheduledFor) && due.value.nextDueAt == Some(next(now)))
            && (!Dispatchable(t, now) ==> t.nextDueAt == Some(next(now)))
            && (t.latestMissedAt.Some? ==> t.latestMissedAt.value in backlog)
  {
    if now < next(l.last) {
      NothingUntilNext(next, l.last, now);
      assert Due(l, next, now) == l.pending;
    } else {
      LatestOfArrived(next, l.last, now);
    }
  }

  lemma BusyPollWaits(db: Db, task: TaskId, l: Ledger, next: Calendar, now: Instant, newRun: RunId)
    requires Ideal(next) && LedgerInv(l, next) && Represents(db, task, l, next) && l.last <= now
    requires HasActiveRun(db, task) || Due(l, next, now) == {}
    ensures var l' := l.(last := now, pending := Due(l, next, now));
            Represents(Poll(db, task, now, next, newRun), task, l', next)
  {
    DueIsLatest(db, task, l, next, now);
    var t, after := db.tasks[task], Poll(db, task, now, next, newRun);
    assert after.runs == db.runs && after.revisions == db.revisions;
    forall k | 0 <= k < |l.ran| ensures OccurrenceTaken(after, task, l.ran[k]) {
      assert OccurrenceTaken(db, task, l.ran[k]);
    }
    if Dispatchable(t, now) {
      var at := DueOccurrence(t, now, next).value.scheduledFor;
      assert after.tasks[task] == t.(latestMissedAt := Some(at), nextDueAt := Some(next(now)));
    } else {
      assert after == db;
    }
  }

  lemma RunsGrow(db: Db, after: Db, task: TaskId, l: Ledger, at: Instant, newRun: RunId)
    requires RunsAre(db, task, l) && newRun !in db.runs
    requires newRun in after.runs && after.runs == db.runs[newRun := after.runs[newRun]]
    requires after.runs[newRun].task == task && after.runs[newRun].scheduledFor == at
    ensures RunsAre(after, task, l.(ran := l.ran + [at]))
  {
    var ran := l.ran + [at];
    forall k | 0 <= k < |ran| ensures OccurrenceTaken(after, task, ran[k]) {
      if k < |l.ran| {
        assert OccurrenceTaken(db, task, l.ran[k]);
        var r :| r in db.runs && db.runs[r].task == task && db.runs[r].scheduledFor == l.ran[k];
        assert r in after.runs && after.runs[r].scheduledFor == ran[k];
      }
    }
    forall r | r in after.runs && after.runs[r].task == task
      ensures after.runs[r].scheduledFor <= l.base || after.runs[r].scheduledFor in ran
    {
      if r == newRun { assert ran[|l.ran|] == at; }
    }
  }

  lemma IdlePollRuns(db: Db, task: TaskId, l: Ledger, next: Calendar, now: Instant, newRun: RunId, at: Instant)
    requires Ideal(next) && LedgerInv(l, next) && Represents(db, task, l, next) && l.last <= now
    requires !HasActiveRun(db, task) && IsMax(Due(l, next, now), at) && newRun !in db.runs
    ensures var l' := l.(last := now, pending := {}, ran := l.ran + [at], superseded := l.superseded + (Due(l, next, now) - {at}));
            Represents(Poll(db, task, now, next, newRun), task, l', next)
    ensures var after := Poll(db, task, now, next, newRun);
            newRun in after.runs && after.runs[newRun].scheduledFor == at
  {
    DueIsLatest(db, task, l, next, now);
    NextRunIsNewer(l, next, now, at);
    var t, after := db.tasks[task], Poll(db, task, now, next, newRun);
    assert DueOccurrence(t, now, next).value.scheduledFor == at;
    assert !OccurrenceTaken(db, task, at);
    RunsGrow(db, after, task, l, at, newRun);
    assert after.tasks[task] == t.(latestMissedAt := None, nextDueAt := Some(next(now)));
    assert after.revisions == db.revisions;
  }

  /** A poll of the row is a dispatch of the ledger. */
  lemma PollDispatches(db: Db, task: TaskId, l: Ledger, next: Calendar, now: Instant, newRun: RunId)
    returns (l': Ledger)
    requires Ideal(next) && LedgerInv(l, next) && Represents(db, task, l, next)
    requires l.last <= now && newRun !in db.runs
    ensures Dispatched(l, l', next, now, HasActiveRun(db, task))
    ensures LedgerInv(l', next)
    ensures Represents(Poll(db, task, now, next, newRun), task, l', next)
    ensures l'.ran != l.ran ==>
              var after := Poll(db, task, now, next, newRun);
              newRun in after.runs && after.runs[newRun].scheduledFor == Newest(l')
  {
    var busy := HasActiveRun(db, task);
    var due := Due(l, next, now);
    if due == {} || busy {
      l' := l.(last := now, pending := due);
      BusyPollWaits(db, task, l, next, now, newRun);
    } else {
      DueIsLatest(db, task, l, next, now);
      var at := DueOccurrence(db.tasks[task], now, next).value.scheduledFor;
      l' := l.(last := now, pending := {}, ran := l.ran + [at], superseded := l.superseded + (due - {at}));
      IdlePollRuns(db, task, l, next, now, newRun, at);
    }
    DispatchKeepsLedger(l, l', next, now, busy);
  }

  /** The two columns in terms of the calendar alone: the next due instant is the first
    * occurrence after the last poll; the latest missed one is the last occurrence strictly
    * between the last run and the next due instant, or else the carried one as long as
    * nothing has run since; and it is absent exactly when there is neither. */
  lemma ColumnsMean(db: Db, task: TaskId, l: Ledger, next: Calendar)
    requires Ideal(next) && LedgerInv(l, next) && Represents(db, task, l, next)
    ensures var t := db.tasks[task];
            && l.last < t.nextDueAt.value && Occurs(next, t.nextDueAt.value)
            && (forall o :: l.last < o && Occurs(next, o) ==> t.nextDueAt.value <= o)
            && (forall o :: LastRun(l) < o < t.nextDueAt.value && Occurs(next, o) ==>
                  t.latestMissedAt.Some? && o <= t.latestMissedAt.value)
            && (t.latestMissedAt.Some? ==>
                  || (LastRun(l) < t.latestMissedAt.value < t.nextDueAt.value && Occurs(next, t.latestMissedAt.value))
                  || (l.ran == [] && l.carried == t.latestMissedAt))
            && (l.ran == [] && l.carried.Some? ==> t.latestMissedAt.Some?)
  {
    NextOccurs(next, l.last);
    forall o | LastRun(l) < o < next(l.last) && Occurs(next, o)
      ensures o in l.pending
    {
      assert o <= l.last;
    }
    if l.ran == [] && l.carried.Some? { assert l.carried.value in l.pending; }
  }

  // ---------- over whole runs ----------

  /** What may happen to the tables between two polls of the task: anything that is not a
    * mutation of it. */
  ghost predicate Undisturbed(a: Db, b: Db, task: TaskId) {
    && task in a.tasks && task in b.tasks
    && var t, u := a.tasks[task], b.tasks[task];
       && u.state == t.state && u.schedule == t.schedule && u.version == t.version
       && u.nextDueAt == t.nextDueAt && u.latestMissedAt == t.latestMissedAt
       && Instruction(b, task, t.version) == Instruction(a, task, t.version)
       && (forall r :: r in b.runs && b.runs[r].task == task ==> r in a.runs)
       && (forall r :: r in a.runs ==>
             r in b.runs && b.runs[r].task == a.runs[r].task && b.runs[r].scheduledFor == a.runs[r].scheduledFor)
  }

  lemma UndisturbedRepresents(a: Db, b: Db, task: TaskId, l: Ledger, next: Calendar)
    requires Ideal(next) && Undisturbed(a, b, task) && Represents(a, task, l, next)
    ensures Represents(b, task, l, next)
  {
    forall k | 0 <= k < |l.ran| ensures OccurrenceTaken(b, task, l.ran[k]) {
      assert OccurrenceTaken(a, task, l.ran[k]);
      var r :| r in a.runs && a.runs[r].task == task && a.runs[r].scheduledFor == l.ran[k];
      assert r in b.runs;
    }
    forall o | o in Held(l) ensures !OccurrenceTaken(b, task, o) {
      assert !OccurrenceTaken(a, task, o);
    }
  }

  /** Every protocol step that is neither a `createDue` nor a mutation of the task leaves it undisturbed. */
  lemma OtherStepsDoNotDisturb(s: Protocol.System, step: Protocol.Step, task: TaskId)
    requires Protocol.Enabled(s, step) && task in s.db.tasks
    requires s.db.tasks[task].state.Active? && s.db.tasks[task].schedule.Cron?
    requires step.CreateDue? || step.Update? || step.Pause? || step.Delete? || step.Resume? ==> step.task != task
    ensures Undisturbed(s.db, Protocol.After(s, step).db, task)
  {
    OtherStepsKeepRow(s, step, task);
    OtherStepsKeepRuns(s, step, task);
  }

  /** No run of the task is new, and no run changes its task or occurrence. */
  ghost predicate KeepsRuns(a: Db, b: Db, task: TaskId) {
    && (forall r :: r in b.runs && b.runs[r].task == task ==> r in a.runs)
    && (forall r :: r in a.runs ==>
          r in b.runs && b.runs[r].task == a.runs[r].task && b.runs[r].scheduledFor == a.runs[r].scheduledFor)
  }

  lemma OtherStepsKeepRuns(s: Protocol.System, step: Protocol.Step, task: TaskId)
    requires Protocol.Enabled(s, step)
    requires step.CreateDue? ==> step.task != task
    ensures KeepsRuns(s.db, Protocol.After(s, step).db, task)
  {
    if step.OnTasks() { TaskStepsKeepRuns(s, step, task); }
  }

  lemma TaskStepsKeepRuns(s: Protocol.System, step: Protocol.Step, task: TaskId)
    requires Protocol.Enabled(s, step) && step.OnTasks()
    ensures KeepsRuns(s.db, Protocol.TasksAfter(s.db, s.lock, step), task)
  {
  }

  /** The row of the task keeps all but its reserved name, and its instruction stays. */
  ghost predicate KeepsRow(a: Db, b: Db, task: TaskId)
    requires task in a.tasks
  {
    && task in b.tasks
    && b.tasks[task] == a.tasks[task].(nameReserved := b.tasks[task].nameReserved)
    && Instruction(b, task, a.tasks[task].version) == Instruction(a, task, a.tasks[task].version)
  }

  lemma OtherStepsKeepRow(s: Protocol.System, step: Protocol.Step, task: TaskId)
    requires Protocol.Enabled(s, step) && task in s.db.tasks
    requires s.db.tasks[task].state.Active? && s.db.tasks[task].schedule.Cron?
    requires step.CreateDue? || step.Update? || step.Pause? || step.Delete? || step.Resume? ==> step.task != task
    ensures KeepsRow(s.db, Protocol.After(s, step).db, task)
  {
    if step.OnTasks() {
      OtherMutationsKeepRow(s, step, task);
    } else if !step.OnEvents() {
      RunStepsKeepRow(s, step, task);
    }
  }

  lemma OtherMutationsKeepRow(s: Protocol.System, step: Protocol.Step, task: TaskId)
    requires Protocol.Enabled(s, step) && task in s.db.tasks && step.OnTasks()
    requires step.CreateTask? || step.task != task
    ensures KeepsRow(s.db, Protocol.TasksAfter(s.db, s.lock, step), task)
  {
  }

  lemma RunStepsKeepRow(s: Protocol.System, step: Protocol.Step, task: TaskId)
    requires Protocol.Enabled(s, step) && task in s.db.tasks && !step.OnEvents() && !step.OnTasks()
    requires s.db.tasks[task].state.Active? && s.db.tasks[task].schedule.Cron?
    requires step.CreateDue? ==> step.task != task
    ensures KeepsRow(s.db, Protocol.RunsAfter(s.db, s.lock, step), task)
  {
  }

  datatype Act = PollAt(now: Instant, newRun: RunId) | Other

  ghost predicate Acted(db: Db, after: Db, act: Act, task: TaskId, next: Calendar)
    requires Ideal(next)
  {
    match act
    case PollAt(now, newRun) => newRun !in db.runs && after == Poll(db, task, now, next, newRun)
    case Other => Undisturbed(db, after, task)
  }

  /** A history of one task: polls with a clock that never runs back, and other things. */
  ghost predicate History(dbs: seq<Db>, acts: seq<Act>, task: TaskId, next: Calendar, start: Instant)
    requires Ideal(next)
  {
    && |dbs| == |acts| + 1
    && (forall i {:trigger acts[i]} :: 0 <= i < |acts| ==>
          Acted(dbs[i], dbs[i + 1], acts[i], task, next) && (acts[i].PollAt? ==> start <= acts[i].now))
    && (forall i, j :: 0 <= i < j < |acts| && acts[i].PollAt? && acts[j].PollAt? ==> acts[i].now <= acts[j].now)
  }

  /** The task as a mutation leaves it that set its due date for what comes after `start`:
    * nothing has run since, and an occurrence missed before may still be owed. */
  ghost predicate JustScheduled(db: Db, task: TaskId, next: Calendar, start: Instant) {
    && task in db.tasks
    && var carried := db.tasks[task].latestMissedAt;
       (carried.Some? ==> carried.value <= start) && Represents(db, task, NewLedger(start, carried), next)
  }

  /** The last poll before position `i`. */
  function LastPoll(acts: seq<Act>, start: Instant, i: nat): Instant
    requires i <= |acts|
  {
    if i == 0 then start else if acts[i - 1].PollAt? then acts[i - 1].now else LastPoll(acts, start, i - 1)
  }

  lemma LastPollIsPast(acts: seq<Act>, start: Instant, i: nat)
    requires i < |acts| && acts[i].PollAt? && start <= acts[i].now
    requires forall k, j :: 0 <= k < j < |acts| && acts[k].PollAt? && acts[j].PollAt? ==> acts[k].now <= acts[j].now
    ensures LastPoll(acts, start, i) <= acts[i].now
  {
    LastPollFrom(acts, start, i, i);
  }

  lemma {:induction false} LastPollFrom(acts: seq<Act>, start: Instant, i: nat, k: nat)
    requires k <= i < |acts| && acts[i].PollAt? && start <= acts[i].now
    requires forall k, j :: 0 <= k < j < |acts| && acts[k].PollAt? && acts[j].PollAt? ==> acts[k].now <= acts[j].now
    ensures LastPoll(acts, start, k) <= acts[i].now
  {
    if k > 0 && !acts[k - 1].PollAt? { LastPollFrom(acts, start, i, k - 1); }
  }

  /** Folding refines the full backlog: at every point of every history between mutations
    * there is a ledger that started at the mutation with what was owed then, accounts for
    * every occurrence since, and is represented by the row. */
  lemma FoldingRefinesBacklog(dbs: seq<Db>, acts: seq<Act>, task: TaskId, next: Calendar, start: Instant, i: nat)
    returns (l: Ledger)
    requires Ideal(next) && History(dbs, acts, task, next, start) && JustScheduled(dbs[0], task, next, start)
    requires i < |dbs|
    ensures l.base == start && l.carried == dbs[0].tasks[task].latestMissedAt && l.last == LastPoll(acts, start, i)
    ensures LedgerInv(l, next) && Represents(dbs[i], task, l, next)
  {
    if i == 0 {
      l := FirstLedger(dbs[0], task, next, start);
    } else {
      var j := i - 1;
      l := FoldingRefinesBacklog(dbs, acts, task, next, start, j);
      l := NextLedger(dbs, acts, task, next, start, j, l);
    }
  }

  lemma NextLedger(dbs: seq<Db>, acts: seq<Act>, task: TaskId, next: Calendar, start: Instant, j: nat, l: Ledger)
    returns (l': Ledger)
    requires Ideal(next) && History(dbs, acts, task, next, start) && j < |acts|
    requires LedgerInv(l, next) && Represents(dbs[j], task, l, next) && l.last == LastPoll(acts, start, j)
    ensures LedgerInv(l', next) && Represents(dbs[j + 1], task, l', next)
    ensures l'.base == l.base && l'.carried == l.carried && l'.last == LastPoll(acts, start, j + 1)
  {
    HistoryAt(dbs, acts, task, next, start, j);
    var db, after, act := dbs[j], dbs[j + 1], acts[j];
    l' := ActKeepsLedger(db, after, act, task, l, next);
  }

  lemma HistoryAt(dbs: seq<Db>, acts: seq<Act>, task: TaskId, next: Calendar, start: Instant, j: nat)
    requires Ideal(next) && History(dbs, acts, task, next, start) && j < |acts|
    ensures Acted(dbs[j], dbs[j + 1], acts[j], task, next)
    ensures acts[j].PollAt? ==> LastPoll(acts, start, j) <= acts[j].now
  {
    var act := acts[j];
    if act.PollAt? { LastPollIsPast(acts, start, j); }
  }

  lemma FirstLedger(db: Db, task: TaskId, next: Calendar, start: Instant) returns (l: Ledger)
    requires JustScheduled(db, task, next, start)
    ensures l == NewLedger(start, db.tasks[task].latestMissedAt) && LedgerInv(l, next) && Represents(db, task, l, next)
  {
    l := NewLedger(start, db.tasks[task].latestMissedAt);
    NewLedgerIsSound(start, l.carried, next);
  }

  lemma ActKeepsLedger(db: Db, after: Db, act: Act, task: TaskId, l: Ledger, next: Calendar) returns (l': Ledger)
    requires Ideal(next) && LedgerInv(l, next) && Represents(db, task, l, next)
    requires Acted(db, after, act, task, next) && (act.PollAt? ==> l.last <= act.now)
    ensures LedgerInv(l', next) && Represents(after, task, l', next)
    ensures l'.base == l.base && l'.carried == l.carried && l'.last == if act.PollAt? then act.now else l.last
  {
    match act
    case PollAt(now, newRun) => l' := PollDispatches(db, task, l, next, now, newRun);
    case Other =>
      l' := l;
      UndisturbedRepresents(db, after, task, l, next);
  }
}
