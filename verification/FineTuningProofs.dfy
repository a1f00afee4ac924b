/** What holds over whole runs of the fine-tuning service. */
module FineTuningProofs {
  import opened Wrappers
  import opened Float32
  import opened FineTuning

  // ----- runs -----

  lemma AfterOne(s: State, es: seq<Event>, e: Event)
    ensures After(s, es + [e]) == Next(After(s, es), e)
  {
    assert (es + [e])[..|es|] == es;
  }

  // ----- a parked task stops the service -----

  ghost predicate ParkedArePaused(s: State) {
    forall t :: 0 <= t < |s.tasks| && s.tasks[t].pc.Parked? ==>
      s.tasks[t].job in s.jobs && s.jobs[s.tasks[t].job].status == Paused
  }

  lemma StepKeepsParked(s: State, e: Event)
    requires ParkedArePaused(s)
    ensures ParkedArePaused(Next(s, e))
  {
    hide Progress, Loss, OnJob;
  }

  lemma {:induction false} RunKeepsParked(s: State, es: seq<Event>)
    requires ParkedArePaused(s)
    ensures ParkedArePaused(After(s, es))
  {
    if es != [] {
      RunKeepsParked(s, es[..|es| - 1]);
      StepKeepsParked(After(s, es[..|es| - 1]), es[|es| - 1]);
    }
  }

  lemma FrozenStep(s: State, e: Event, t: nat)
    requires ParkedArePaused(s) && t < |s.tasks| && s.tasks[t].pc.Parked?
    ensures Next(s, e).jobs == s.jobs && t < |Next(s, e).tasks| && Next(s, e).tasks[t] == s.tasks[t]
  {
    assert Frozen(s);
  }

  lemma {:induction false} FrozenRun(s: State, es: seq<Event>, t: nat)
    requires ParkedArePaused(s) && t < |s.tasks| && s.tasks[t].pc.Parked?
    ensures After(s, es).jobs == s.jobs && t < |After(s, es).tasks| && After(s, es).tasks[t] == s.tasks[t]
  {
    hide Next;
    if es != [] {
      FrozenRun(s, es[..|es| - 1], t);
      RunKeepsParked(s, es[..|es| - 1]);
      FrozenStep(After(s, es[..|es| - 1]), es[|es| - 1], t);
    }
  }

  /**
   From the moment a task waits for a resume, no job ever changes again, in particular its
   own job stays paused, and it waits forever.
   */
  lemma {:induction false} ParkedTaskFreezesTheService(es: seq<Event>, t: nat, more: seq<Event>)
    requires t < |After(Initial, es).tasks| && After(Initial, es).tasks[t].pc.Parked?
    ensures After(After(Initial, es), more).jobs == After(Initial, es).jobs
    ensures t < |After(After(Initial, es), more).tasks|
    ensures After(After(Initial, es), more).tasks[t] == After(Initial, es).tasks[t]
    ensures var job := After(Initial, es).tasks[t].job;
            job in After(Initial, es).jobs && After(Initial, es).jobs[job].status == Paused
  {
    hide Next;
    RunKeepsParked(Initial, es);
    FrozenRun(After(Initial, es), more, t);
  }

  // ----- after a pause or a cancellation -----

  predicate Halted(s: State, id: JobId) {
    id in s.jobs && (s.jobs[id].status == Paused || s.jobs[id].status == Cancelled)
  }

  /** The job is paused or cancelled in every state of the run. */
  ghost predicate HaltedThroughout(s: State, es: seq<Event>, id: JobId) {
    Halted(After(s, es), id) && (es == [] || HaltedThroughout(s, es[..|es| - 1], id))
  }

  /** Event `e` lets task `t` record an epoch. */
  ghost predicate Records(s: State, e: Event, t: nat) {
    e.Advance? && e.task == t && t < |s.tasks| && s.tasks[t].pc.Training? && !Frozen(s)
  }

  ghost function RecordsIn(s: State, es: seq<Event>, t: nat): nat {
    if es == [] then 0
    else
      RecordsIn(s, es[..|es| - 1], t) + if Records(After(s, es[..|es| - 1]), es[|es| - 1], t) then 1 else 0
  }

  ghost function InTraining(s: State, t: nat): nat {
    if t < |s.tasks| && s.tasks[t].pc.Training? then 1 else 0
  }

  lemma HaltedStep(s: State, e: Event, id: JobId, t: nat)
    requires Halted(s, id) && Halted(Next(s, e), id) && t < |s.tasks| && s.tasks[t].job == id
    ensures t < |Next(s, e).tasks| && Next(s, e).tasks[t].job == id && Next(s, e).tasks[t].total == s.tasks[t].total
    ensures (if Records(s, e, t) then 1 else 0) + InTraining(Next(s, e), t) <= InTraining(s, t)
  {
    hide Progress, Loss, OnJob;
  }

  /**
   While a job stays paused or cancelled, each of its tasks records at most one more epoch:
   the one it was training when the halt came, and none if it was not training.
   */
  lemma {:induction false} AtMostOneMoreEpoch(s: State, es: seq<Event>, id: JobId, t: nat)
    requires HaltedThroughout(s, es, id) && t < |s.tasks| && s.tasks[t].job == id
    ensures RecordsIn(s, es, t) + InTraining(After(s, es), t) <= InTraining(s, t)
    ensures t < |After(s, es).tasks| && After(s, es).tasks[t].job == id
            && After(s, es).tasks[t].total == s.tasks[t].total
  {
    hide Next;
    if es != [] {
      AtMostOneMoreEpoch(s, es[..|es| - 1], id, t);
      HaltedStep(After(s, es[..|es| - 1]), es[|es| - 1], id, t);
    }
  }

  lemma HaltedJobGetsNoTask(s: State, e: Event, id: JobId)
    requires Halted(s, id) && Halted(Next(s, e), id)
    ensures forall u :: |s.tasks| <= u < |Next(s, e).tasks| ==> Next(s, e).tasks[u].job != id
    ensures |s.tasks| <= |Next(s, e).tasks|
    ensures forall u :: 0 <= u < |s.tasks| ==> Next(s, e).tasks[u].job == s.tasks[u].job
  {
    hide Progress, Loss;
  }

  /** And it gets no new task. */
  lemma {:induction false} NoNewTaskWhileHalted(s: State, es: seq<Event>, id: JobId)
    requires HaltedThroughout(s, es, id)
    ensures forall u :: |s.tasks| <= u < |After(s, es).tasks| ==> After(s, es).tasks[u].job != id
    ensures |s.tasks| <= |After(s, es).tasks|
  {
    hide Next;
    if es != [] {
      NoNewTaskWhileHalted(s, es[..|es| - 1], id);
      HaltedJobGetsNoTask(After(s, es[..|es| - 1]), es[|es| - 1], id);
    }
  }

  // ----- cancelled, and completed all the same -----

  predicate IsCancelled(s: State, id: JobId) {
    id in s.jobs && s.jobs[id].status == Cancelled
  }

  ghost predicate CancelledThroughout(s: State, es: seq<Event>, id: JobId) {
    IsCancelled(After(s, es), id) && (es == [] || CancelledThroughout(s, es[..|es| - 1], id))
  }

  /** The task will not look at the job's status again. */
  predicate PastLastCheck(task: Task) {
    task.pc == Finishing || task.pc == Training(task.total)
  }

  lemma CancelledStep(s: State, e: Event, id: JobId, t: nat)
    requires IsCancelled(s, id) && IsCancelled(Next(s, e), id)
             && t < |Next(s, e).tasks| && Next(s, e).tasks[t].job == id
    requires PastLastCheck(Next(s, e).tasks[t])
    ensures t < |s.tasks| && s.tasks[t].job == id && PastLastCheck(s.tasks[t])
  {
    hide Progress, Loss;
  }

  lemma {:induction false} PastLastCheckSince(s: State, es: seq<Event>, id: JobId, t: nat)
    requires CancelledThroughout(s, es, id)
    requires t < |After(s, es).tasks| && After(s, es).tasks[t].job == id && PastLastCheck(After(s, es).tasks[t])
    ensures t < |s.tasks| && s.tasks[t].job == id && PastLastCheck(s.tasks[t])
  {
    hide Next;
    if es != [] {
      CancelledStep(After(s, es[..|es| - 1]), es[|es| - 1], id, t);
      PastLastCheckSince(s, es[..|es| - 1], id, t);
    }
  }

  lemma CompletingStep(s: State, e: Event, id: JobId)
    requires IsCancelled(s, id) && id in Next(s, e).jobs && Next(s, e).jobs[id].status == Completed
    ensures e.Advance? && e.task < |s.tasks| && s.tasks[e.task].job == id && s.tasks[e.task].pc == Finishing
  {
    hide Progress, Loss;
  }

  /**
   A cancelled job is completed only by a task that was past its last look at the status when
   the job was cancelled.
   */
  lemma CancelledJobCompletedBy(s: State, es: seq<Event>, e: Event, id: JobId)
    requires CancelledThroughout(s, es, id)
    requires var s' := Next(After(s, es), e); id in s'.jobs && s'.jobs[id].status == Completed
    ensures e.Advance? && e.task < |s.tasks| && s.tasks[e.task].job == id && PastLastCheck(s.tasks[e.task])
  {
    hide Next;
    CompletingStep(After(s, es), e, id);
    PastLastCheckSince(s, es, id, e.task);
  }

  /** It does happen: a job of one epoch, cancelled while that epoch is trained. */
  lemma CancelledJobCanComplete()
    ensures var s0 := Next(Next(Next(Initial, Do(Create(7, 1, true, true))), Do(Start(7, 0))), Advance(0, 0));
            && Apply(s0, Cancel(7)).1.Success?
            && var s := Next(Next(Next(s0, Do(Cancel(7))), Advance(0, 0)), Advance(0, 0));
               7 in s.jobs && s.jobs[7].status == Completed
  {
    hide Progress, Loss;
    var s1 := Next(Initial, Do(Create(7, 1, true, true)));
    assert s1 == State(map[7 := NewJob(1)], []);
    var s2 := Next(s1, Do(Start(7, 0)));
    assert s2.tasks == [NewTask(7, 1)] && s2.jobs.Keys == {7} && s2.jobs[7].status == Running;
    var s0 := Next(s2, Advance(0, 0));
    assert s0.tasks == [AnyTask.Task(7, 1, Training(1))] && s0.jobs == s2.jobs;
    var s3 := Next(s0, Do(Cancel(7)));
    assert s3.tasks == s0.tasks && s3.jobs.Keys == {7} && s3.jobs[7].status == Cancelled;
    var s4 := Next(s3, Advance(0, 0));
    assert s4.tasks == [AnyTask.Task(7, 1, Finishing)] && s4.jobs.Keys == {7};
  }

  // ----- all moves between statuses -----

  /** Events that would end the life of the entry, or replace it. */
  predicate Replaces(e: Event, id: JobId) {
    e == Do(Delete(id)) || (e.Do? && e.command.Create? && e.command.id == id)
  }

  /**
   The status of a job moves only from Pending or Paused to Running and from Running to
   Paused, to Cancelled from anything but Completed, each by its own command, and to Completed
   by a task that has finished its loop.
   */
  lemma StatusMoves(s: State, e: Event, id: JobId)
    requires id in s.jobs && !Replaces(e, id)
    ensures id in Next(s, e).jobs
    ensures var a, b := s.jobs[id].status, Next(s, e).jobs[id].status;
            a != b ==>
              match b
              case Running => (a == Pending || a == Paused) && e.Do? && e.command.id == id
                              && (e.command.Start? || (e.command.Resume? && a == Paused))
              case Paused => a == Running && e == Do(Pause(id))
              case Cancelled => a != Completed && e == Do(Cancel(id))
              case Completed =>
                e.Advance? && e.task < |s.tasks| && s.tasks[e.task].job == id && s.tasks[e.task].pc == Finishing
              case _ => false
  {
    hide Progress, Loss;
  }

  /** A cancelled job is never started again: until it is deleted it stays cancelled or is completed. */
  lemma {:induction false} CancelledIsFinal(s: State, es: seq<Event>, id: JobId)
    requires id in s.jobs && (s.jobs[id].status == Cancelled || s.jobs[id].status == Completed)
    requires forall i :: 0 <= i < |es| ==> !Replaces(es[i], id)
    ensures id in After(s, es).jobs
    ensures After(s, es).jobs[id].status == Cancelled || After(s, es).jobs[id].status == Completed
  {
    hide Next;
    if es != [] {
      CancelledIsFinal(s, es[..|es| - 1], id);
      StatusMoves(After(s, es[..|es| - 1]), es[|es| - 1], id);
    }
  }

  // ----- completion is final -----

  /** A completed job stays completed until it is deleted, whatever commands and tasks do. */
  lemma {:induction false} CompletedIsFinal(s: State, es: seq<Event>, id: JobId)
    requires id in s.jobs && s.jobs[id].status == Completed
    requires forall i :: 0 <= i < |es| ==> !Replaces(es[i], id)
    ensures id in After(s, es).jobs && After(s, es).jobs[id].status == Completed
  {
    hide Next;
    if es != [] {
      CompletedIsFinal(s, es[..|es| - 1], id);
      StatusMoves(After(s, es[..|es| - 1]), es[|es| - 1], id);
    }
  }

  // ----- exactly when a cancelled job is completed after all -----

  ghost predicate KeepsEntry(es: seq<Event>, id: JobId) {
    forall i :: 0 <= i < |es| ==> !Replaces(es[i], id)
  }

  /** The continuation completes the job without deleting or replacing it. */
  ghost predicate Completes(s: State, es: seq<Event>, id: JobId) {
    KeepsEntry(es, id) && id in After(s, es).jobs && After(s, es).jobs[id].status == Completed
  }

  ghost predicate HasTaskPastLastCheck(s: State, id: JobId) {
    exists t :: 0 <= t < |s.tasks| && s.tasks[t].job == id && PastLastCheck(s.tasks[t])
  }

  /** A job that is cancelled at both ends of a run was cancelled all the way. */
  lemma {:induction false} CancelledAllTheWay(s: State, es: seq<Event>, id: JobId)
    requires IsCancelled(s, id) && KeepsEntry(es, id) && IsCancelled(After(s, es), id)
    ensures CancelledThroughout(s, es, id)
  {
    hide Next;
    if es != [] {
      var front := es[..|es| - 1];
      CancelledIsFinal(s, front, id);
      if After(s, front).jobs[id].status == Completed {
        StatusMoves(After(s, front), es[|es| - 1], id);
      }
      CancelledAllTheWay(s, front, id);
    }
  }

  lemma {:induction false} CompletionNeedsSuchATask(s: State, es: seq<Event>, id: JobId)
    requires IsCancelled(s, id) && Completes(s, es, id)
    ensures HasTaskPastLastCheck(s, id)
  {
    hide Next;
    var front, e := es[..|es| - 1], es[|es| - 1];
    CancelledIsFinal(s, front, id);
    if After(s, front).jobs[id].status == Completed {
      CompletionNeedsSuchATask(s, front, id);
    } else {
      CancelledAllTheWay(s, front, id);
      CancelledJobCompletedBy(s, front, e, id);
    }
  }

  lemma FinishingCompletes(s: State, id: JobId, t: nat)
    requires !Frozen(s) && id in s.jobs && t < |s.tasks| && s.tasks[t].job == id && s.tasks[t].pc == Finishing
    ensures Completes(s, [Advance(t, 0)], id)
  {
    assert [Advance(t, 0)][..0] == [];
  }

  lemma SuchATaskCompletes(s: State, id: JobId, t: nat) returns (es: seq<Event>)
    requires !Frozen(s) && IsCancelled(s, id)
    requires t < |s.tasks| && s.tasks[t].job == id && PastLastCheck(s.tasks[t])
    ensures Completes(s, es, id)
  {
    hide Progress, Loss;
    var last := Advance(t, 0);
    if s.tasks[t].pc == Finishing {
      es := [last];
      FinishingCompletes(s, id, t);
    } else {
      es := [last, last];
      var s1 := Next(s, last);
      NotFrozen(s, t, s1);
      FinishingCompletes(s1, id, t);
      assert es[..1] == [last] && [last][..0] == [];
      assert After(s, [last]) == s1;
    }
  }

  lemma NothingCompletesWhileFrozen(s: State, es: seq<Event>, id: JobId)
    requires ParkedArePaused(s) && Frozen(s) && IsCancelled(s, id)
    ensures !Completes(s, es, id)
  {
    var t :| 0 <= t < |s.tasks| && s.tasks[t].pc.Parked?;
    FrozenRun(s, es, t);
  }

  /**
   In every reachable state, a cancelled job can still be completed, without being deleted or
   replaced, if and only if some task of it is past its last look at the status and no task
   of any job is parked.
   */
  lemma CancelledJobCompletesIff(run: seq<Event>, id: JobId)
    requires IsCancelled(After(Initial, run), id)
    ensures var s := After(Initial, run);
            (exists es :: Completes(s, es, id)) <==> HasTaskPastLastCheck(s, id) && !Frozen(s)
  {
    hide Next, Frozen, HasTaskPastLastCheck;
    var s := After(Initial, run);
    RunKeepsParked(Initial, run);
    if es :| Completes(s, es, id) {
      CompletionNeedsSuchATask(s, es, id);
      if Frozen(s) {
        NothingCompletesWhileFrozen(s, es, id);
      }
    }
    if HasTaskPastLastCheck(s, id) && !Frozen(s) {
      var es := SomeTaskCompletes(s, id);
    }
  }

  lemma SomeTaskCompletes(s: State, id: JobId) returns (es: seq<Event>)
    requires !Frozen(s) && IsCancelled(s, id) && HasTaskPastLastCheck(s, id)
    ensures Completes(s, es, id)
  {
    var t :| 0 <= t < |s.tasks| && s.tasks[t].job == id && PastLastCheck(s.tasks[t]);
    es := SuchATaskCompletes(s, id, t);
  }

  /** Right after a cancellation the lock is free, so such a task is all it takes. */
  lemma JustCancelledJobCompletesIff(run: seq<Event>, id: JobId)
    requires !Frozen(After(Initial, run)) && Apply(After(Initial, run), Cancel(id)).1.Success?
    ensures var s := After(Initial, run + [Do(Cancel(id))]);
            && IsCancelled(s, id)
            && ((exists es :: Completes(s, es, id)) <==> HasTaskPastLastCheck(s, id))
  {
    hide HasTaskPastLastCheck;
    var all := run + [Do(Cancel(id))];
    assert all[..|all| - 1] == run;
    CancelledJobCompletesIff(all, id);
  }
}
