/** Short runs that show why the assumptions of the admission theorems are there. */
module Witnesses {
  import opened Records
  import opened Tables
  import opened Protocol
  import EventRows
  import RunRows
  import Admission
  import Exclusion

  /** A run, one step longer. */
  lemma Extend(states: seq<System>, steps: seq<Step>, step: Step) returns (longer: seq<System>, taken: seq<Step>)
    requires IsRun(states, steps) && Enabled(states[|steps|], step)
    ensures IsRun(longer, taken) && taken == steps + [step]
    ensures longer == states + [After(states[|steps|], step)]
  {
    longer, taken := states + [After(states[|steps|], step)], steps + [step];
    forall i | 0 <= i < |taken|
      ensures Enabled(longer[i], taken[i]) && longer[i + 1] == After(longer[i], taken[i])
    {
      if i < |steps| { assert taken[i] == steps[i]; }
    }
  }

  const FIRST := EventRows.Claim(EventRows.Fresh(7, false, 10), 100)
  const LATE := EventRows.Fresh(7, false, 5)

  lemma ReachFirst() returns (states: seq<System>, steps: seq<Step>)
    ensures IsRun(states, steps) && |steps| == 2 && states[2] == System(Db(map[2 := FIRST], map[], map[], map[]), None)
  {
    states, steps := [START], [];
    states, steps := Extend(states, steps, Enqueue(2, 7, false, 10));
    assert ProcessingEvents(states[1].db) == {} && ProcessingRuns(states[1].db) == {};
    states, steps := Extend(states, steps, ClaimReady({2}, 1, 100, 10));
    assert states[2].db.events == map[2 := FIRST];
  }

  lemma ReachLateArrival() returns (states: seq<System>, steps: seq<Step>)
    ensures IsRun(states, steps) && |steps| == 3 && steps[2] == Enqueue(1, 7, false, 5)
    ensures states[2].db.events == map[2 := FIRST]
    ensures states[3] == System(Db(map[1 := LATE, 2 := FIRST], map[], map[], map[]), None)
  {
    states, steps := ReachFirst();
    states, steps := Extend(states, steps, Enqueue(1, 7, false, 5));
    assert states[3].db.events == map[1 := LATE, 2 := FIRST];
  }

  /** Event 2 is claimed, then event 1 commits with an earlier `received_at`: both end up
    * processing in one conversation. */
  lemma LateArrivalBreaksExclusion() returns (states: seq<System>, steps: seq<Step>)
    ensures IsRun(states, steps) && |steps| == 4
    ensures var db := states[4].db;
            1 in ProcessingEvents(db) && 2 in ProcessingEvents(db)
            && db.events[1].conversation == db.events[2].conversation
    ensures !Admission.Orderly(states[2], steps[2]) && !Exclusion.ArrivesBehind(states[2], steps[2])
  {
    states, steps := ReachLateArrival();
    assert ProcessingEvents(states[3].db) == {2} && ProcessingRuns(states[3].db) == {};
    states, steps := Extend(states, steps, ClaimReady({1}, 1, 100, 10));
    assert states[4].db.events[1].status.Processing? && states[4].db.events[2].status.Processing?;
  }

  const HOME := Target(1, "home", Group)
  const AWAY := Target(2, "away", Group)
  const BODY := Revision("report", Once(50, "UTC"), HOME, None)
  const MOVED := BODY.(target := AWAY)
  const MOVE_AWAY := Changes(None, None, None, Some(AWAY), None, None)
  const WAITING := Run(1, 50, 60, 1, "report", HOME, None, RunStatus.Queued, 0, None, None, None, None, None, None, None)
  const LAUNCHED := Task("task", 1, Once(50, "UTC"), HOME, None, InFlight, true, None, None)
  const BUSY := EventRows.Claim(EventRows.Fresh(2, false, 10), 100)

  /** A one-time task of chat 1 whose run is selected while an event of chat 2 is processing. */
  const SELECTED := System(Db(map[9 := BUSY], map[5 := WAITING], map[1 := LAUNCHED], map[(1, 1) := BODY]),
                           Some(Selection(5, 1, 1)))

  lemma ReachQueued() returns (states: seq<System>, steps: seq<Step>)
    ensures IsRun(states, steps) && |steps| == 2 && states[2] == System(SELECTED.db.(events := map[]), None)
  {
    states, steps := [START], [];
    states, steps := Extend(states, steps, CreateTask(1, "task", BODY, 50));
    states, steps := Extend(states, steps, CreateDue(1, 50, 50, None, 5, 60));
    assert states[2].db == SELECTED.db.(events := map[]);
  }

  lemma ReachBusy() returns (states: seq<System>, steps: seq<Step>)
    ensures IsRun(states, steps) && |steps| == 4 && states[4] == System(SELECTED.db, None)
  {
    states, steps := ReachQueued();
    states, steps := Extend(states, steps, Enqueue(9, 2, false, 10));
    assert ProcessingEvents(states[3].db) == {} && ProcessingRuns(states[3].db) == {};
    states, steps := Extend(states, steps, ClaimReady({9}, 1, 100, 60));
    assert states[4].db.events == SELECTED.db.events;
  }

  lemma ReachSelected() returns (states: seq<System>, steps: seq<Step>)
    ensures IsRun(states, steps) && |steps| == 5 && states[5] == SELECTED && steps[4].SelectRun?
  {
    states, steps := ReachBusy();
    assert ProcessingEvents(states[4].db) == {9} && ProcessingRuns(states[4].db) == {};
    states, steps := Extend(states, steps, SelectRun(5, 60));
  }

  const STOPPED := SELECTED.(db := Db(map[9 := BUSY], map[5 := RunRows.Cancel(WAITING)],
  map[1 := LAUNCHED.(state := Paused, version := 2)], map[(1, 1) := BODY, (1, 2) := BODY]))

  const REDIRECTED := SELECTED.(db := Db(map[9 := BUSY], map[5 := RunRows.Cancel(WAITING)],
  map[1 := LAUNCHED.(state := Paused, version := 3, target := AWAY)], map[(1, 1) := BODY, (1, 2) := BODY, (1, 3) := MOVED]))

  const REBOUND := SELECTED.(db := Db(map[9 := BUSY], map[5 := RunRows.Rebind(WAITING, 4, "report", AWAY, None)],
  map[1 := LAUNCHED.(version := 4, target := AWAY)],
  map[(1, 1) := BODY, (1, 2) := BODY, (1, 3) := MOVED, (1, 4) := MOVED]))

  lemma PauseStep()
    ensures Enabled(SELECTED, Pause(1, 1)) && After(SELECTED, Pause(1, 1)) == STOPPED
  {
    var after := After(SELECTED, Pause(1, 1)).db;
    assert after.runs == STOPPED.db.runs && after.tasks == STOPPED.db.tasks;
    assert after.revisions == STOPPED.db.revisions;
  }

  lemma UpdateTables()
    ensures Tables.Update(STOPPED.db, 1, 2, MOVE_AWAY).0 == REDIRECTED.db
  {
    assert !NameTaken(STOPPED.db, "task", {1});
    assert Revised(STOPPED.db, 1, MOVE_AWAY) == MOVED;
    var (after, _) := Tables.Update(STOPPED.db, 1, 2, MOVE_AWAY);
    assert after.tasks == REDIRECTED.db.tasks && after.revisions == REDIRECTED.db.revisions;
  }

  lemma UpdateStep()
    ensures Enabled(STOPPED, Update(1, 2, MOVE_AWAY)) && After(STOPPED, Update(1, 2, MOVE_AWAY)) == REDIRECTED
  {
    UpdateTables();
  }

  lemma ResumeFindsRun()
    ensures LatestCancelled(REDIRECTED.db, 1, 5)
  {
  }

  lemma ResumeTables()
    ensures CancelledChoice(REDIRECTED.db, 1, Some(5))
    ensures Tables.Resume(REDIRECTED.db, 1, 3, None, 60, Some(5)).0 == REBOUND.db
  {
    ResumeFindsRun();
    assert !HasActiveRun(REDIRECTED.db, 1) && !NameTaken(REDIRECTED.db, "task", {1});
    assert Reread(REDIRECTED.db, 1) == MOVED;
    var (after, _) := Tables.Resume(REDIRECTED.db, 1, 3, None, 60, Some(5));
    assert after.runs == REBOUND.db.runs && after.tasks == REBOUND.db.tasks;
    assert after.revisions == REBOUND.db.revisions;
  }

  lemma ResumeStep()
    ensures Enabled(REDIRECTED, Resume(1, 3, None, 60, Some(5)))
    ensures After(REDIRECTED, Resume(1, 3, None, 60, Some(5))) == REBOUND
  {
    ResumeTables();
  }

  lemma CommitStep()
    ensures Enabled(REBOUND, CommitRun(200)) && !Admission.ChatsApart(After(REBOUND, CommitRun(200)).db)
  {
    var after := After(REBOUND, CommitRun(200)).db;
    assert after.runs[5].status.Processing? && after.events[9].status.Processing?;
  }

  lemma ReachRedirected() returns (states: seq<System>, steps: seq<Step>)
    ensures IsRun(states, steps) && |steps| == 7 && states[7] == REDIRECTED
    ensures steps[4].SelectRun? && steps[5].Pause? && steps[6].Update?
  {
    states, steps := ReachSelected();
    PauseStep();
    states, steps := Extend(states, steps, Pause(1, 1));
    UpdateStep();
    states, steps := Extend(states, steps, Update(1, 2, MOVE_AWAY));
  }

  /** While `claimNext` holds the lock for a run of chat 1, its task is paused, moved to
    * chat 2 and resumed; the run starts beside an event that is processing in chat 2. */
  lemma ReboundSelectionMeetsChat() returns (states: seq<System>, steps: seq<Step>)
    ensures IsRun(states, steps) && |steps| == 9
    ensures steps[4].SelectRun? && steps[5].Pause? && steps[6].Update? && steps[7].Resume? && steps[8].CommitRun?
    ensures !Admission.ChatsApart(states[9].db)
  {
    states, steps := ReachRedirected();
    ResumeStep();
    states, steps := Extend(states, steps, Resume(1, 3, None, 60, Some(5)));
    CommitStep();
    states, steps := Extend(states, steps, CommitRun(200));
  }
}
