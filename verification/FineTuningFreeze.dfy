/** Exactly when a pause can stop the whole service. */
module FineTuningFreeze {
  import opened Wrappers
  import opened Float32
  import opened FineTuning
  import opened FineTuningProofs

  /** The task will look at its job's status again. */
  predicate WillLook(task: Task) {
    task.pc.Checking? || (task.pc.Training? && task.pc.epoch < task.total)
  }

  /** Some task of job `id` will look at the job's status again. */
  ghost predicate HasTaskThatWillLook(s: State, id: JobId) {
    exists t :: 0 <= t < |s.tasks| && s.tasks[t].job == id && WillLook(s.tasks[t])
  }

  predicate IsPaused(s: State, id: JobId) {
    id in s.jobs && s.jobs[id].status == Paused
  }

  /** Some paused job has such a task. */
  ghost predicate PauseUnnoticed(s: State) {
    exists id :: IsPaused(s, id) && HasTaskThatWillLook(s, id)
  }

  predicate TaskStepsOnly(es: seq<Event>) {
    forall i :: 0 <= i < |es| ==> es[i].Advance?
  }

  predicate NoPause(es: seq<Event>) {
    forall i :: 0 <= i < |es| ==> !(es[i].Do? && es[i].command.Pause?)
  }

  /** The service is stopped, or a pause is still to be noticed. */
  ghost predicate CanStop(s: State) {
    Frozen(s) || PauseUnnoticed(s)
  }

  // ----- without such a task the lock stays free -----

  lemma NewlyPaused(s: State, e: Event, id: JobId)
    requires !(e.Do? && e.command.Pause?) && IsPaused(Next(s, e), id)
    ensures IsPaused(s, id)
    ensures forall t :: 0 <= t < |Next(s, e).tasks| && Next(s, e).tasks[t].job == id ==>
              t < |s.tasks| && s.tasks[t].job == id
  {
    hide Progress, Loss;
  }

  lemma LookedBefore(s: State, e: Event, id: JobId, t: nat)
    requires t < |s.tasks| && s.tasks[t].job == id && !s.tasks[t].pc.Parked?
    ensures t < |Next(s, e).tasks| && Next(s, e).tasks[t].job == id
    ensures WillLook(Next(s, e).tasks[t]) ==> WillLook(s.tasks[t])
    ensures Next(s, e).tasks[t].pc.Parked? ==> IsPaused(s, id) && WillLook(s.tasks[t])
  {
    hide Progress, Loss, OnJob;
  }

  lemma NewTasksAreNotParked(s: State, e: Event, t: nat)
    requires |s.tasks| <= t < |Next(s, e).tasks|
    ensures !Next(s, e).tasks[t].pc.Parked?
  {
    hide Progress, Loss, OnJob;
  }

  lemma UnnoticedBefore(s: State, e: Event, id: JobId)
    requires !Frozen(s) && !(e.Do? && e.command.Pause?)
    requires IsPaused(Next(s, e), id) && HasTaskThatWillLook(Next(s, e), id)
    ensures IsPaused(s, id) && HasTaskThatWillLook(s, id)
  {
    hide Next, WillLook;
    NewlyPaused(s, e, id);
    var s' := Next(s, e);
    var t :| 0 <= t < |s'.tasks| && s'.tasks[t].job == id && WillLook(s'.tasks[t]);
    LookedBefore(s, e, id, t);
  }

  lemma ParkedBefore(s: State, e: Event)
    requires !Frozen(s) && Frozen(Next(s, e))
    ensures PauseUnnoticed(s)
  {
    hide Next, WillLook;
    var s' := Next(s, e);
    var t :| 0 <= t < |s'.tasks| && s'.tasks[t].pc.Parked?;
    if t >= |s.tasks| {
      NewTasksAreNotParked(s, e, t);
    }
    LookedBefore(s, e, s.tasks[t].job, t);
    assert HasTaskThatWillLook(s, s.tasks[t].job);
  }

  lemma StepKeepsFree(s: State, e: Event)
    requires !CanStop(s) && !(e.Do? && e.command.Pause?)
    ensures !CanStop(Next(s, e))
  {
    hide Next, Frozen, HasTaskThatWillLook;
    if Frozen(Next(s, e)) {
      ParkedBefore(s, e);
    }
    if id :| IsPaused(Next(s, e), id) && HasTaskThatWillLook(Next(s, e), id) {
      UnnoticedBefore(s, e, id);
    }
  }

  lemma {:induction false} RunKeepsFree(s: State, es: seq<Event>)
    requires !CanStop(s) && NoPause(es)
    ensures !CanStop(After(s, es))
  {
    hide Next, CanStop;
    if es != [] {
      RunKeepsFree(s, es[..|es| - 1]);
      StepKeepsFree(After(s, es[..|es| - 1]), es[|es| - 1]);
    }
  }

  // ----- with one, its task stops the service -----

  lemma LookingFreezes(s: State, t: nat)
    requires t < |s.tasks| && IsPaused(s, s.tasks[t].job) && s.tasks[t].pc.Checking?
    ensures Frozen(Next(s, Advance(t, 0)))
  {
    assert Next(s, Advance(t, 0)).tasks[t].pc.Parked?;
  }

  lemma RecordingLooksAgain(s: State, t: nat)
    requires !Frozen(s) && t < |s.tasks| && IsPaused(s, s.tasks[t].job)
    requires s.tasks[t].pc.Training? && s.tasks[t].pc.epoch < s.tasks[t].total
    ensures var s' := Next(s, Advance(t, 0));
            t < |s'.tasks| && s'.tasks[t].pc.Checking? && IsPaused(s', s'.tasks[t].job)
  {
    hide Progress, Loss;
  }

  lemma TaskFreezes(s: State, t: nat) returns (es: seq<Event>)
    requires !Frozen(s) && t < |s.tasks| && IsPaused(s, s.tasks[t].job) && WillLook(s.tasks[t])
    ensures TaskStepsOnly(es) && Frozen(After(s, es))
  {
    hide Next, Frozen;
    var look := Advance(t, 0);
    if s.tasks[t].pc.Checking? {
      es := [] + [look];
      LookingFreezes(s, t);
      AfterOne(s, [], look);
    } else {
      es := [] + [look] + [look];
      RecordingLooksAgain(s, t);
      LookingFreezes(Next(s, look), t);
      AfterOne(s, [], look);
      AfterOne(s, [] + [look], look);
    }
  }

  lemma ThenStops(s: State) returns (es: seq<Event>)
    requires CanStop(s)
    ensures TaskStepsOnly(es) && Frozen(After(s, es))
  {
    hide Frozen;
    if Frozen(s) {
      es := [];
    } else {
      var id :| IsPaused(s, id) && HasTaskThatWillLook(s, id);
      var t :| 0 <= t < |s.tasks| && s.tasks[t].job == id && WillLook(s.tasks[t]);
      es := TaskFreezes(s, t);
    }
  }

  /**
   From any state the tasks alone can stop the service if and only if it is stopped already or
   a task of a paused job will look at the job's status again; and no other command than a
   pause adds to that.
   */
  lemma FreezesIff(s: State)
    ensures (exists es :: TaskStepsOnly(es) && Frozen(After(s, es))) <==> Frozen(s) || PauseUnnoticed(s)
    ensures (exists es :: NoPause(es) && Frozen(After(s, es))) <==> Frozen(s) || PauseUnnoticed(s)
  {
    hide Frozen, PauseUnnoticed;
    if es :| NoPause(es) && Frozen(After(s, es)) {
      if !CanStop(s) {
        RunKeepsFree(s, es);
      }
    }
    if es :| TaskStepsOnly(es) && Frozen(After(s, es)) {
      assert NoPause(es);
    }
    if CanStop(s) {
      var es := ThenStops(s);
      assert NoPause(es);
    }
  }

  // ----- right after a pause -----

  lemma PauseAdds(s: State, id: JobId)
    requires !Frozen(s) && Apply(s, Pause(id)).1.Success?
    ensures var s' := Next(s, Do(Pause(id)));
            && !Frozen(s') && IsPaused(s', id)
            && (PauseUnnoticed(s') <==> HasTaskThatWillLook(s, id) || PauseUnnoticed(s))
  {
    var s' := Next(s, Do(Pause(id)));
    assert s'.tasks == s.tasks;
    assert s' == Apply(s, Pause(id)).0;
    assert forall i :: IsPaused(s', i) <==> i == id || IsPaused(s, i);
    assert forall i :: HasTaskThatWillLook(s', i) <==> HasTaskThatWillLook(s, i);
  }

  /**
   Right after a successful pause, in every reachable state: the tasks alone can stop the
   service if and only if a task of the paused job will look at the status again, or there was
   such a task of another paused job before. Otherwise a resume gets through, now and after
   any commands but a pause.
   */
  lemma JustPausedServiceFreezesIff(run: seq<Event>, id: JobId)
    requires !Frozen(After(Initial, run)) && Apply(After(Initial, run), Pause(id)).1.Success?
    ensures var s0, s := After(Initial, run), After(Initial, run + [Do(Pause(id))]);
            var can := HasTaskThatWillLook(s0, id) || PauseUnnoticed(s0);
            && IsPaused(s, id)
            && ((exists es :: TaskStepsOnly(es) && Frozen(After(s, es))) <==> can)
            && ((exists es :: NoPause(es) && Frozen(After(s, es))) <==> can)
  {
    hide Frozen, PauseUnnoticed, HasTaskThatWillLook, Next;
    var all := run + [Do(Pause(id))];
    assert all[..|all| - 1] == run;
    PauseAdds(After(Initial, run), id);
    FreezesIff(After(Initial, all));
  }

  // ----- it does happen -----

  /**
   A job is created, started and paused before its first epoch, and its task looks at the status:
   from then on no run gets it out of the pause.
   */
  lemma PausedJobFreezesTheService()
    ensures var es := [Do(Create(7, 1, true, true)), Do(Start(7, 0)), Do(Pause(7)), Advance(0, 0)];
            Frozen(After(Initial, es)) && forall more :: IsPaused(After(After(Initial, es), more), 7)
  {
    var create, start, pause, look := Do(Create(7, 1, true, true)), Do(Start(7, 0)), Do(Pause(7)), Advance(0, 0);
    var es := [create, start, pause, look];
    var s := Next(Next(Next(Initial, create), start), pause);
    StartedAndPaused();
    LookingFreezes(s, 0);
    AfterFour(Initial, create, start, pause, look);
    forall more ensures IsPaused(After(After(Initial, es), more), 7) {
      ParkedTaskFreezesTheService(es, 0, more);
    }
  }

  lemma AfterFour(s: State, a: Event, b: Event, c: Event, d: Event)
    ensures After(s, [a, b, c, d]) == Next(Next(Next(Next(s, a), b), c), d)
  {
    hide Next;
    assert [a, b, c, d] == [] + [a] + [b] + [c] + [d];
    AfterOne(s, [], a);
    AfterOne(s, [] + [a], b);
    AfterOne(s, [] + [a] + [b], c);
    AfterOne(s, [] + [a] + [b] + [c], d);
  }

  lemma StartedAndPaused()
    ensures var s := Next(Next(Next(Initial, Do(Create(7, 1, true, true))), Do(Start(7, 0))), Do(Pause(7)));
            s.tasks == [AnyTask.Task(7, 1, Checking(1))] && IsPaused(s, 7)
  {
    var s1 := Next(Initial, Do(Create(7, 1, true, true)));
    assert s1 == State(map[7 := NewJob(1)], []);
    var s2 := Next(s1, Do(Start(7, 0)));
    assert s2.tasks == [NewTask(7, 1)] && s2.jobs.Keys == {7} && s2.jobs[7].status == Running;
  }
}
