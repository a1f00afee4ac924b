/**
 What a second start of a job can do: the new task begins at epoch one while the old one is
 still training, so the job can go back, and exactly if it has at least two epochs.
 */
module FineTuningRestart {
  import opened Wrappers
  import opened Float32
  import opened FineTuning
  import opened FineTuningProofs
  import opened FineTuningProgress

  /** In the continuation the job shows a lower epoch than it did after the first `i` events. */
  ghost predicate SetsBack(s: State, more: seq<Event>, i: nat, id: JobId) {
    && i <= |more| && KeepsEntry(more, id)
    && id in After(s, more[..i]).jobs && id in After(s, more).jobs
    && After(s, more).jobs[id].epoch < After(s, more[..i]).jobs[id].epoch
  }

  /** The continuation leaves a job whose numbers do not fit its status. */
  ghost predicate Spoils(s: State, more: seq<Event>, id: JobId) {
    KeepsEntry(more, id) && id in After(s, more).jobs && !JobIsSound(After(s, more).jobs[id])
  }

  // ----- jobs of at most one epoch -----

  /** With at most one epoch every task that is through its loop has recorded all there is. */
  ghost predicate IsSmall(s: State, id: JobId) {
    && id in s.jobs && JobIsSound(s.jobs[id]) && s.jobs[id].status != Pending && s.jobs[id].totalEpochs <= 1
    && forall t :: 0 <= t < |s.tasks| && s.tasks[t].job == id ==>
         && s.tasks[t].total == s.jobs[id].totalEpochs
         && (s.tasks[t].pc == Finishing ==> s.jobs[id].epoch == s.jobs[id].totalEpochs)
  }

  lemma SmallStep(s: State, e: Event, id: JobId)
    requires IsSmall(s, id) && !Replaces(e, id)
    ensures IsSmall(Next(s, e), id) && Ahead(s.jobs[id], Next(s, e).jobs[id])
  {
    hide Progress, Loss;
    LastEpochShows(1);
    StatusMoves(s, e, id);
    SoundJobsAreAhead(s.jobs[id], Next(s, e).jobs[id]);
  }

  lemma {:induction false} SmallRun(s: State, more: seq<Event>, i: nat, id: JobId)
    requires IsSmall(s, id) && KeepsEntry(more, id) && i <= |more|
    ensures IsSmall(After(s, more), id) && id in After(s, more[..i]).jobs
    ensures Ahead(After(s, more[..i]).jobs[id], After(s, more).jobs[id])
  {
    hide Next, IsSmall;
    if more != [] {
      var front, e := more[..|more| - 1], more[|more| - 1];
      SmallRun(s, front, if i < |more| then i else 0, id);
      SmallStep(After(s, front), e, id);
      assert i < |more| ==> front[..i] == more[..i];
    }
    if i == |more| {
      assert more[..i] == more;
      AheadOfItself(After(s, more), id);
    }
  }

  lemma AheadOfItself(s: State, id: JobId)
    requires IsSmall(s, id)
    ensures id in s.jobs && Ahead(s.jobs[id], s.jobs[id])
  {
  }

  lemma SmallJobsNeverGoBack(s: State, id: JobId)
    requires IsSmall(s, id)
    ensures !exists more, i: nat :: SetsBack(s, more, i, id)
    ensures !exists more :: Spoils(s, more, id)
  {
    hide After, IsSmall;
    forall more, i: nat | i <= |more| && KeepsEntry(more, id) ensures !SetsBack(s, more, i, id) {
      SmallRun(s, more, i, id);
    }
    forall more | KeepsEntry(more, id) ensures !Spoils(s, more, id) {
      SmallRun(s, more, 0, id);
      SmallIsSound(After(s, more), id);
    }
  }

  lemma SmallIsSound(s: State, id: JobId)
    requires IsSmall(s, id)
    ensures id in s.jobs && JobIsSound(s.jobs[id])
  {
  }

  // ----- jobs of two or more epochs -----

  /** Task `t` can train the job to its last epoch undisturbed. */
  ghost predicate CanTrain(s: State, t: nat, id: JobId) {
    && !Frozen(s) && id in s.jobs && s.jobs[id].status == Running
    && t < |s.tasks| && s.tasks[t].job == id && s.tasks[t].total == s.jobs[id].totalEpochs
    && (s.tasks[t].pc.Checking? || s.tasks[t].pc.Training? || s.tasks[t].pc.Finishing?)
    && (s.tasks[t].pc.Finishing? ==> s.jobs[id].epoch == s.jobs[id].totalEpochs)
  }

  function Remaining(task: Task): nat {
    match task.pc
    case Checking(e) => 2 * (task.total - e) + 2
    case Training(e) => 2 * (task.total - e) + 1
    case _ => 0
  }

  lemma TrainingStep(s: State, t: nat, id: JobId)
    requires CanTrain(s, t, id) && !s.tasks[t].pc.Finishing?
    ensures var s' := Next(s, Advance(t, 0));
            && CanTrain(s', t, id) && Remaining(s'.tasks[t]) < Remaining(s.tasks[t])
            && s'.jobs[id].totalEpochs == s.jobs[id].totalEpochs
            && s'.tasks == s.tasks[t := s'.tasks[t]]
  {
    hide Progress, Loss;
    NotFrozen(s, t, Next(s, Advance(t, 0)));
  }

  lemma {:induction false} AfterFirst(s: State, e: Event, es: seq<Event>)
    ensures After(s, [e] + es) == After(Next(s, e), es)
  {
    hide Next;
    var all := [e] + es;
    if es == [] {
      assert all == [e] && [e][..0] == [];
    } else {
      AfterFirst(s, e, es[..|es| - 1]);
      assert all[..|all| - 1] == [e] + es[..|es| - 1];
    }
  }

  /** Driving one task to the end of its loop shows the last epoch. */
  lemma {:induction false} TrainToTheEnd(s: State, t: nat, id: JobId) returns (es: seq<Event>)
    requires CanTrain(s, t, id)
    ensures KeepsEntry(es, id) && CanTrain(After(s, es), t, id) && After(s, es).tasks[t].pc.Finishing?
    ensures forall i :: 0 <= i < |es| ==> es[i] == Advance(t, 0)
    ensures After(s, es).jobs[id].totalEpochs == s.jobs[id].totalEpochs
    ensures After(s, es).tasks == s.tasks[t := After(s, es).tasks[t]]
    decreases Remaining(s.tasks[t])
  {
    hide Next, Remaining;
    if s.tasks[t].pc.Finishing? {
      es := [];
      assert s.tasks == s.tasks[t := s.tasks[t]];
    } else {
      var e := Advance(t, 0);
      TrainingStep(s, t, id);
      var rest := TrainToTheEnd(Next(s, e), t, id);
      es := [e] + rest;
      AfterFirst(s, e, rest);
    }
  }

  /** The old task at the end of its loop, the new one before its first epoch. */
  ghost predicate Overtaken(s: State, t: nat, u: nat, id: JobId) {
    && CanTrain(s, t, id) && s.tasks[t].pc.Finishing? && s.jobs[id].totalEpochs >= 2
    && u < |s.tasks| && u != t && s.tasks[u] == NewTask(id, s.jobs[id].totalEpochs)
  }

  /** The old task completes the job, and then the new one records its first epoch. */
  lemma NewTaskSetsBack(s: State, t: nat, u: nat, id: JobId)
    requires Overtaken(s, t, u, id)
    ensures var s' := Next(Next(Next(s, Advance(t, 0)), Advance(u, 0)), Advance(u, 0));
            id in s'.jobs && s'.jobs[id].epoch == 1 && s'.jobs[id].status == Completed
            && s'.jobs[id].totalEpochs == s.jobs[id].totalEpochs
  {
    hide Progress, Loss;
    var s1 := Next(s, Advance(t, 0));
    NotFrozen(s, t, s1);
    assert id in s1.jobs && s1.jobs[id].status == Completed && s1.tasks[u] == s.tasks[u];
    var s2 := Next(s1, Advance(u, 0));
    NotFrozen(s1, u, s2);
    assert s2.tasks[u].pc == Training(1) && s2.jobs == s1.jobs;
    RecordStep(s2, u, 1);
  }

  lemma AfterThree(s: State, es: seq<Event>, a: Event, b: Event)
    ensures After(s, es + [a, b, b]) == Next(Next(Next(After(s, es), a), b), b)
  {
    hide Next;
    assert es + [a, b, b] == ((es + [a]) + [b]) + [b];
    AfterOne(s, es, a);
    AfterOne(s, es + [a], b);
    AfterOne(s, es + [a] + [b], b);
  }

  /** From such a pair of tasks the epoch falls from the last one to one, with the job Completed. */
  lemma TwoTasksSetBack(s: State, t: nat, u: nat, id: JobId) returns (more: seq<Event>, i: nat)
    requires CanTrain(s, t, id) && s.jobs[id].totalEpochs >= 2
    requires u < |s.tasks| && u != t && s.tasks[u] == NewTask(id, s.jobs[id].totalEpochs)
    ensures SetsBack(s, more, i, id) && Spoils(s, more, id)
  {
    hide Next, NewTask;
    var es := TrainToTheEnd(s, t, id);
    var s1 := After(s, es);
    assert s1.tasks[u] == s.tasks[u];
    NewTaskSetsBack(s1, t, u, id);
    more, i := es + [Advance(t, 0), Advance(u, 0), Advance(u, 0)], |es|;
    AfterThree(s, es, Advance(t, 0), Advance(u, 0));
    assert more[..i] == es;
  }

  // ----- the exact condition -----

  lemma RestartedIs(s: State, id: JobId, now: int)
    requires Consistent(s, id) && !Frozen(s) && id in s.jobs && s.jobs[id].status == Paused
    ensures var s' := Next(s, Do(Start(id, now)));
            && id in s'.jobs && s'.jobs[id] == s.jobs[id].(status := Running, startedAt := Some(now))
            && s'.tasks == s.tasks + [NewTask(id, s.jobs[id].totalEpochs)] && !Frozen(s')
            && (s.jobs[id].totalEpochs <= 1 ==> IsSmall(s', id))
  {
  }

  lemma OldTaskCanTrain(s: State, id: JobId, now: int) returns (t: nat)
    requires Consistent(s, id) && !Frozen(s) && id in s.jobs && s.jobs[id].status == Paused
    ensures t < |s.tasks| && CanTrain(Next(s, Do(Start(id, now))), t, id)
  {
    hide Next;
    RestartedIs(s, id, now);
    t :| 0 <= t < |s.tasks| && s.tasks[t].job == id;
    assert TaskFits(s.tasks[t], s.jobs[id]);
    assert Next(s, Do(Start(id, now))).tasks[t] == s.tasks[t];
  }

  /**
   After a second start of a job (the first was from Pending, so the second is from Paused)
   some continuation lets its epoch fall, and some continuation leaves a job that does not
   fit its status, each if and only if the job has two epochs or more.
   */
  lemma SecondStartSetsBackIff(run: seq<Event>, id: JobId, now: int)
    requires FreshIds(run) && StartedAtMostOnce(run, id) && !Frozen(After(Initial, run))
    requires id in After(Initial, run).jobs && After(Initial, run).jobs[id].status == Paused
    ensures var s := Next(After(Initial, run), Do(Start(id, now)));
            && ((exists more, i: nat :: SetsBack(s, more, i, id)) <==> After(Initial, run).jobs[id].totalEpochs >= 2)
            && ((exists more :: Spoils(s, more, id)) <==> After(Initial, run).jobs[id].totalEpochs >= 2)
  {
    hide Next, FreshIds, StartedAtMostOnce, Frozen, CanTrain, IsSmall;
    var s0 := After(Initial, run);
    var s := Next(s0, Do(Start(id, now)));
    OneStartOneTask(run, id);
    RunIsConsistent(run, id);
    RestartedIs(s0, id, now);
    if s0.jobs[id].totalEpochs >= 2 {
      var t := OldTaskCanTrain(s0, id, now);
      var more, i := TwoTasksSetBack(s, t, |s0.tasks|, id);
    } else {
      SmallJobsNeverGoBack(s, id);
    }
  }
}
