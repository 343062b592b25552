/** What may start: only runs of live tasks, whatever commits between selection and start. */
module Starting {
  import opened Records
  import opened Tables
  import opened Protocol

  /** What `claimNext` remembers across its two halves stays a run of the remembered task. */
  ghost predicate SelectionNamesRun(s: System) {
    s.lock.Some? ==> s.lock.value.run in s.db.runs && s.db.runs[s.lock.value.run].task == s.lock.value.task
  }

  lemma RunsKeepTheirTask(s: System, step: Step, r: RunId)
    requires Enabled(s, step) && r in s.db.runs
    ensures r in After(s, step).db.runs && After(s, step).db.runs[r].task == s.db.runs[r].task
  {
  }

  lemma SelectionAlways(states: seq<System>, steps: seq<Step>, i: nat)
    requires IsRun(states, steps) && i < |states|
    ensures SelectionNamesRun(states[i])
  {
    if i > 0 {
      SelectionAlways(states, steps, i - 1);
      var s, step := states[i - 1], steps[i - 1];
      assert states[i - 1 + 1] == After(s, step);
      if s.lock.Some? { RunsKeepTheirTask(s, step, s.lock.value.run); }
    }
  }

  ghost predicate Starts(a: Db, b: Db, r: RunId) {
    && r in b.runs && b.runs[r].status.Processing?
    && !(r in a.runs && a.runs[r].status.Processing?)
  }

  lemma OnlyCommitsStart(s: System, step: Step, r: RunId)
    requires Enabled(s, step) && Starts(s.db, After(s, step).db, r)
    ensures step.CommitRun? && s.lock.value.run == r && MayStart(s.db, r, s.lock.value.task)
    ensures After(s, step).db.tasks == s.db.tasks
  {
    if !step.Admits() { QuietSteps(s, step); }
  }

  /** In every run, whichever step makes a run processing and whatever committed since the
    * run was selected: the run was there before, and its own task is active or in flight
    * when it starts, so neither paused, deleted nor done. */
  lemma OnlyLiveTasksStart(states: seq<System>, steps: seq<Step>, i: nat, r: RunId)
    requires IsRun(states, steps) && i < |steps| && Starts(states[i].db, states[i + 1].db, r)
    ensures r in states[i].db.runs && states[i].db.runs[r].status.Queued?
    ensures var task, db := states[i].db.runs[r].task, states[i + 1].db;
            && db.runs[r].task == task && task in db.tasks
            && (db.tasks[task].state.Active? || db.tasks[task].state.InFlight?)
  {
    assert states[i + 1] == After(states[i], steps[i]);
    SelectionAlways(states, steps, i);
    OnlyCommitsStart(states[i], steps[i], r);
    RunsKeepTheirTask(states[i], steps[i], r);
  }
}
