/** How the epoch, progress and loss of a job develop when it is started at most once. */
module FineTuningProgress {
  import opened Wrappers
  import opened Float32
  import opened FineTuning

  // ----- runs -----

  ghost predicate Creates(e: Event, id: JobId) {
    e.Do? && e.command.Create? && e.command.id == id
  }

  /** Job ids are random and never handed out twice. */
  ghost predicate FreshIds(es: seq<Event>) {
    forall i, j :: 0 <= i < j < |es| && es[i].Do? && es[i].command.Create? ==> !Creates(es[j], es[i].command.id)
  }

  /** Event `i` starts the job. */
  ghost predicate Starts(es: seq<Event>, i: nat, id: JobId) {
    && i < |es| && es[i].Do? && es[i].command.Start? && es[i].command.id == id
    && var s := After(Initial, es[..i]); !Frozen(s) && Apply(s, es[i].command).1.Success?
  }

  ghost predicate StartedAtMostOnce(es: seq<Event>, id: JobId) {
    forall i, j :: 0 <= i < j < |es| ==> !(Starts(es, i, id) && Starts(es, j, id))
  }

  ghost predicate AtMostOneTask(s: State, id: JobId) {
    forall t, u :: 0 <= t < u < |s.tasks| ==> !(s.tasks[t].job == id && s.tasks[u].job == id)
  }

  lemma TasksStep(s: State, e: Event)
    ensures |s.tasks| <= |Next(s, e).tasks| <= |s.tasks| + 1
    ensures forall t :: 0 <= t < |s.tasks| ==> Next(s, e).tasks[t].job == s.tasks[t].job
    ensures |Next(s, e).tasks| > |s.tasks| ==>
              && e.Do? && e.command.Start? && !Frozen(s) && Apply(s, e.command).1.Success?
              && Next(s, e).tasks[|s.tasks|].job == e.command.id
  {
    hide Progress, Loss, OnJob;
  }

  /** Every task was started by a command of its own. */
  lemma {:induction false} TaskWasStarted(es: seq<Event>, t: nat) returns (i: nat)
    requires t < |After(Initial, es).tasks|
    ensures Starts(es, i, After(Initial, es).tasks[t].job) && |After(Initial, es[..i]).tasks| == t
  {
    hide Next, Apply;
    var front := es[..|es| - 1];
    TasksStep(After(Initial, front), es[|es| - 1]);
    if t < |After(Initial, front).tasks| {
      i := TaskWasStarted(front, t);
      assert es[..i] == front[..i] && es[i] == front[i];
    } else {
      i := |front|;
    }
  }

  lemma OneStartOneTask(es: seq<Event>, id: JobId)
    requires StartedAtMostOnce(es, id)
    ensures AtMostOneTask(After(Initial, es), id)
  {
    var s := After(Initial, es);
    forall t, u | 0 <= t < u < |s.tasks| ensures !(s.tasks[t].job == id && s.tasks[u].job == id) {
      if s.tasks[t].job == id && s.tasks[u].job == id {
        var i := TaskWasStarted(es, t);
        var j := TaskWasStarted(es, u);
      }
    }
  }

  // ----- the numbers a job shows -----

  function ShownProgress(epoch: nat, total: nat, completed: bool): real
    requires epoch <= total
  {
    if completed then 100.0 else if epoch == 0 then 0.0 else Progress(epoch, total)
  }

  function ShownLoss(epoch: nat, total: nat): real
    requires epoch <= total
  {
    if epoch == 0 then 0.0 else Loss(epoch, total)
  }

  lemma ProgressGrows(a: nat, b: nat, total: nat)
    requires 0 < a <= b <= total
    ensures 0.0 <= Progress(a, total) <= Progress(b, total) <= 100.0
  {
    hide Round;
    QuotientMonotone(a, b, total);
    QuotientAtMostOne(b, total);
    ProductMonotoneIn(FloatQuotient(a, total), FloatQuotient(b, total), 100.0);
    ProductMonotoneIn(FloatQuotient(b, total), 1.0, 100.0);
    RoundExact(100);
    assert FloatProduct(1.0, 100.0) == 100.0;
  }

  lemma LossFalls(a: nat, b: nat, total: nat)
    requires 0 < a <= b <= total
    ensures Loss(b, total) <= Loss(a, total)
  {
    hide Round;
    QuotientMonotone(a, b, total);
    QuotientAtMostOne(a, total);
    QuotientAtMostOne(b, total);
    var p, q := 1.0 - FloatQuotient(a, total), 1.0 - FloatQuotient(b, total);
    RoundMonotone(q, p);
    RoundNonNegative(q);
    RoundNonNegative(p);
    ProductMonotoneIn(Round(q), Round(p), 2.0);
  }

  /** The last epoch shows 100 percent and no loss, whatever the number of epochs. */
  lemma LastEpochShows(total: nat)
    requires total > 0
    ensures Progress(total, total) == 100.0 && Loss(total, total) == 0.0
  {
    hide Round;
    RoundNonNegative(total as real);
    DivideBySelf(Round(total as real));
    RoundExact(1);
    RoundExact(100);
    RoundExact(0);
    assert FloatQuotient(total, total) == 1.0;
    assert FloatProduct(1.0, 100.0) == 100.0 && FloatProduct(2.0, 0.0) == 0.0;
  }

  lemma DivideBySelf(x: real)
    requires x > 0.0
    ensures x / x == 1.0
  {
  }

  // ----- the job and its task agree -----

  /** Where a training task is fits what its job shows. */
  predicate TaskFits(task: Task, job: Job) {
    && task.total == job.totalEpochs
    && match task.pc
       case Checking(e) => job.epoch == e - 1 && IsOpen(job)
       case Parked(e) => job.epoch == e - 1 && IsOpen(job)
       case Training(e) => job.epoch == e - 1 && IsOpen(job)
       case Finishing => job.epoch == job.totalEpochs && IsOpen(job)
       case Ended => job.status == Cancelled || job.status == Completed
  }

  predicate IsOpen(job: Job) {
    job.status == Running || job.status == Paused || job.status == Cancelled
  }

  ghost predicate JobIsSound(job: Job) {
    && job.epoch <= job.totalEpochs && job.status != Failed
    && job.progress == ShownProgress(job.epoch, job.totalEpochs, job.status == Completed)
    && job.loss == ShownLoss(job.epoch, job.totalEpochs)
    && (job.status == Pending ==> job.epoch == 0)
    && (job.status == Completed ==> job.epoch == job.totalEpochs && job.completedAt.Some?)
  }

  ghost predicate HasTask(s: State, id: JobId) {
    exists t :: 0 <= t < |s.tasks| && s.tasks[t].job == id
  }

  ghost predicate Consistent(s: State, id: JobId) {
    id in s.jobs ==>
      && JobIsSound(s.jobs[id])
      && (forall t :: 0 <= t < |s.tasks| && s.tasks[t].job == id ==> TaskFits(s.tasks[t], s.jobs[id]))
      && (s.jobs[id].status == Running || s.jobs[id].status == Paused ==> HasTask(s, id))
  }

  /** From `a` the job has only gone forward to `b`. */
  predicate Ahead(a: Job, b: Job) {
    && a.epoch <= b.epoch && a.progress <= b.progress && a.totalEpochs == b.totalEpochs
    && (a.epoch > 0 ==> b.loss <= a.loss)
  }

  lemma SoundJobsAreAhead(a: Job, b: Job)
    requires JobIsSound(a) && JobIsSound(b) && a.epoch <= b.epoch && a.totalEpochs == b.totalEpochs
    requires a.status == Completed ==> b.status == Completed
    ensures Ahead(a, b)
  {
    hide Progress, Loss;
    if b.epoch > 0 {
      ProgressGrows(b.epoch, b.epoch, b.totalEpochs);
    }
    if a.epoch > 0 {
      ProgressGrows(a.epoch, b.epoch, a.totalEpochs);
      LossFalls(a.epoch, b.epoch, a.totalEpochs);
    }
  }

  lemma TaskIsHere(s: State, id: JobId, t: nat)
    requires t < |s.tasks| && s.tasks[t].job == id
    ensures HasTask(s, id)
  {
  }

  lemma CommandKeepsConsistent(s: State, c: Command, id: JobId)
    requires Consistent(s, id) && !(c.Create? && c.id == id) && AtMostOneTask(Apply(s, c).0, id)
    ensures Consistent(Apply(s, c).0, id)
    ensures id in s.jobs && id in Apply(s, c).0.jobs ==> Ahead(s.jobs[id], Apply(s, c).0.jobs[id])
    ensures id in Apply(s, c).0.jobs ==> id in s.jobs
  {
    hide Progress, Loss, Ahead, ShownProgress, ShownLoss;
    var s' := Apply(s, c).0;
    if HasTask(s, id) {
      var t :| 0 <= t < |s.tasks| && s.tasks[t].job == id;
      assert s'.tasks[t] == s.tasks[t];
      TaskIsHere(s', id, t);
    }
    if |s'.tasks| > |s.tasks| {
      TaskIsHere(s', c.id, |s.tasks|);
    }
    if id in s.jobs && id in s'.jobs {
      SoundJobsAreAhead(s.jobs[id], s'.jobs[id]);
    }
  }

  lemma SectionKeepsConsistent(s: State, t: nat, now: int, id: JobId)
    requires Consistent(s, id) && t < |s.tasks| && AtMostOneTask(s, id)
    ensures Consistent(TaskStep(s, t, now), id)
    ensures id in TaskStep(s, t, now).jobs <==> id in s.jobs
    ensures id in s.jobs ==> Ahead(s.jobs[id], TaskStep(s, t, now).jobs[id])
  {
    hide Progress, Loss, Frozen, TaskStep;
    if s.tasks[t].job == id {
      OwnSectionKeepsConsistent(s, t, now);
    } else {
      OtherSectionKeepsConsistent(s, t, now, id);
    }
  }

  lemma OwnSectionKeepsConsistent(s: State, t: nat, now: int)
    requires t < |s.tasks| && Consistent(s, s.tasks[t].job) && AtMostOneTask(s, s.tasks[t].job)
    ensures Consistent(TaskStep(s, t, now), s.tasks[t].job)
    ensures s.tasks[t].job in TaskStep(s, t, now).jobs <==> s.tasks[t].job in s.jobs
    ensures s.tasks[t].job in s.jobs ==> Ahead(s.jobs[s.tasks[t].job], TaskStep(s, t, now).jobs[s.tasks[t].job])
  {
    hide Progress, Loss, Frozen;
    var id := s.tasks[t].job;
    TaskIsHere(TaskStep(s, t, now), id, t);
    if id in s.jobs {
      SoundJobsAreAhead(s.jobs[id], TaskStep(s, t, now).jobs[id]);
    }
  }

  lemma OtherSectionKeepsConsistent(s: State, t: nat, now: int, id: JobId)
    requires Consistent(s, id) && t < |s.tasks| && s.tasks[t].job != id
    ensures Consistent(TaskStep(s, t, now), id)
    ensures id in TaskStep(s, t, now).jobs <==> id in s.jobs
    ensures id in s.jobs ==> Ahead(s.jobs[id], TaskStep(s, t, now).jobs[id])
  {
    hide Progress, Loss, Frozen, JobIsSound, TaskFits;
    var s' := TaskStep(s, t, now);
    if HasTask(s, id) {
      var u :| 0 <= u < |s.tasks| && s.tasks[u].job == id;
      TaskIsHere(s', id, u);
    }
  }

  lemma StepKeepsConsistent(s: State, e: Event, id: JobId)
    requires Consistent(s, id) && !Creates(e, id) && AtMostOneTask(Next(s, e), id)
    ensures Consistent(Next(s, e), id) && AtMostOneTask(s, id)
    ensures id in Next(s, e).jobs ==> id in s.jobs && Ahead(s.jobs[id], Next(s, e).jobs[id])
  {
    hide Progress, Loss, Apply, TaskStep, Consistent;
    TasksStep(s, e);
    match e
    case Do(c) =>
      if Frozen(s) {
        SameIsAhead(s, id);
      } else {
        CommandKeepsConsistent(s, c, id);
      }
    case Advance(t, now) =>
      if t < |s.tasks| {
        SectionKeepsConsistent(s, t, now, id);
      } else {
        SameIsAhead(s, id);
      }
  }

  lemma SameIsAhead(s: State, id: JobId)
    ensures id in s.jobs ==> Ahead(s.jobs[id], s.jobs[id])
  {
  }

  /** Before its creation a job has no entry and no task. */
  lemma {:induction false} NothingBeforeCreation(es: seq<Event>, id: JobId)
    requires forall i :: 0 <= i < |es| ==> !Creates(es[i], id)
    ensures id !in After(Initial, es).jobs && !HasTask(After(Initial, es), id)
  {
    if es != [] {
      NothingBeforeCreation(es[..|es| - 1], id);
      NothingStep(After(Initial, es[..|es| - 1]), es[|es| - 1], id);
    }
  }

  lemma NothingStep(s: State, e: Event, id: JobId)
    requires id !in s.jobs && !HasTask(s, id) && !Creates(e, id)
    ensures id !in Next(s, e).jobs && !HasTask(Next(s, e), id)
  {
    hide Progress, Loss, OnJob;
  }

  lemma CreationStep(s: State, e: Event, id: JobId)
    requires id !in s.jobs && !HasTask(s, id) && Creates(e, id)
    ensures Consistent(Next(s, e), id) && !HasTask(Next(s, e), id)
  {
    hide Progress, Loss;
  }

  lemma FewerTasksBefore(s: State, e: Event, id: JobId)
    requires AtMostOneTask(Next(s, e), id)
    ensures AtMostOneTask(s, id)
  {
    hide Next;
    TasksStep(s, e);
  }

  lemma CreatedLast(es: seq<Event>, id: JobId)
    requires FreshIds(es) && es != [] && Creates(es[|es| - 1], id)
    ensures var front := es[..|es| - 1]; forall i :: 0 <= i < |front| ==> !Creates(front[i], id)
  {
  }

  lemma {:induction false} RunIsConsistent(es: seq<Event>, id: JobId)
    requires FreshIds(es) && AtMostOneTask(After(Initial, es), id)
    ensures Consistent(After(Initial, es), id)
  {
    hide Next, AtMostOneTask;
    if es != [] {
      var front, e := es[..|es| - 1], es[|es| - 1];
      var s := After(Initial, front);
      if Creates(e, id) {
        CreatedLast(es, id);
        NothingBeforeCreation(front, id);
        CreationStep(s, e, id);
      } else {
        FewerTasksBefore(s, e, id);
        RunIsConsistent(front, id);
        StepKeepsConsistent(s, e, id);
      }
    }
  }

  /**
   In a run that starts the job at most once: the epoch never exceeds the total, progress
   and loss are those of the epoch, and a completed job has done all epochs, shows 100
   percent and has a completion time.
   */
  lemma SingleStartKeepsJobSound(es: seq<Event>, id: JobId)
    requires FreshIds(es) && StartedAtMostOnce(es, id) && id in After(Initial, es).jobs
    ensures JobIsSound(After(Initial, es).jobs[id])
  {
    OneStartOneTask(es, id);
    RunIsConsistent(es, id);
  }

  lemma {:induction false} TasksMoveForward(es: seq<Event>, i: nat, id: JobId)
    requires i <= |es| && FreshIds(es) && AtMostOneTask(After(Initial, es), id)
    requires id in After(Initial, es[..i]).jobs && id in After(Initial, es).jobs
    ensures Ahead(After(Initial, es[..i]).jobs[id], After(Initial, es).jobs[id])
  {
    hide Next, AtMostOneTask, Consistent;
    if i == |es| {
      assert es[..i] == es;
    } else {
      var front, e := es[..|es| - 1], es[|es| - 1];
      var s := After(Initial, front);
      assert front[..i] == es[..i];
      if Creates(e, id) {
        CreatedLast(es, id);
        NothingBeforeCreation(front[..i], id);
        assert false;
      }
      FewerTasksBefore(s, e, id);
      RunIsConsistent(front, id);
      StepKeepsConsistent(s, e, id);
      TasksMoveForward(front, i, id);
    }
  }

  /** In such a run epoch and progress never decrease, and from the first epoch on the loss never increases. */
  lemma SingleStartMovesForward(es: seq<Event>, i: nat, id: JobId)
    requires i <= |es| && FreshIds(es) && StartedAtMostOnce(es, id)
    requires id in After(Initial, es[..i]).jobs && id in After(Initial, es).jobs
    ensures Ahead(After(Initial, es[..i]).jobs[id], After(Initial, es).jobs[id])
  {
    OneStartOneTask(es, id);
    TasksMoveForward(es, i, id);
  }

  /** A job of two epochs, paused in its second epoch and started again: the states of the run. */
  ghost function StartedTwice(): State {
    var s1 := Next(Next(Next(Initial, Do(Create(7, 2, true, true))), Do(Start(7, 0))), Advance(0, 0));
    Next(Next(Next(Next(s1, Advance(0, 0)), Advance(0, 0)), Do(Pause(7))), Do(Start(7, 0)))
  }

  lemma StartedTwiceIs()
    ensures StartedTwice().tasks == [AnyTask.Task(7, 2, Training(2)), AnyTask.Task(7, 2, Checking(1))]
    ensures 7 in StartedTwice().jobs && StartedTwice().jobs[7].status == Running
  {
    hide Progress, Loss;
    var a := Next(Initial, Do(Create(7, 2, true, true)));
    assert a == State(map[7 := NewJob(2)], []);
    var b := Next(a, Do(Start(7, 0)));
    assert b.tasks == [NewTask(7, 2)] && b.jobs.Keys == {7} && b.jobs[7].status == Running;
    var s1 := Next(b, Advance(0, 0));
    assert s1.tasks == [AnyTask.Task(7, 2, Training(1))] && s1.jobs == b.jobs;
    RecordStep(s1, 0, 1);
    var c := Next(s1, Advance(0, 0));
    assert c.tasks == [AnyTask.Task(7, 2, Checking(2))];
    var d := Next(c, Advance(0, 0));
    assert d.tasks == [AnyTask.Task(7, 2, Training(2))] && d.jobs == c.jobs;
    var e := Next(d, Do(Pause(7)));
    assert e.tasks == d.tasks && 7 in e.jobs && e.jobs[7].status == Paused && e.jobs[7].totalEpochs == 2;
  }

  /**
   With a second start the epoch can go back: the new task begins at one again while the old one
   is still training.
   */
  lemma SecondStartSetsBack()
    ensures var s3 := Next(StartedTwice(), Advance(0, 0));
            var s4 := Next(Next(s3, Advance(1, 0)), Advance(1, 0));
            7 in s3.jobs && s3.jobs[7].epoch == 2 && 7 in s4.jobs && s4.jobs[7].epoch == 1
  {
    hide Progress, Loss, StartedTwice;
    var s2 := StartedTwice();
    StartedTwiceIs();
    RecordStep(s2, 0, 2);
    var s3 := Next(s2, Advance(0, 0));
    assert s3.tasks == [AnyTask.Task(7, 2, Finishing), AnyTask.Task(7, 2, Checking(1))];
    var f := Next(s3, Advance(1, 0));
    assert f.tasks == [AnyTask.Task(7, 2, Finishing), AnyTask.Task(7, 2, Training(1))] && f.jobs == s3.jobs;
    RecordStep(f, 1, 1);
  }

  lemma RecordStep(s: State, t: nat, e: nat)
    requires t < |s.tasks| && s.tasks[t].pc == Training(e) && s.tasks[t].job in s.jobs && !Frozen(s)
    ensures Next(s, Advance(t, 0)).tasks == s.tasks[t := s.tasks[t].(pc := AfterRecord(e, s.tasks[t].total))]
    ensures Next(s, Advance(t, 0)).jobs.Keys == s.jobs.Keys
    ensures var id := s.tasks[t].job;
            var job := Next(s, Advance(t, 0)).jobs[id];
            job.epoch == e && job.status == s.jobs[id].status && job.totalEpochs == s.jobs[id].totalEpochs
  {
    hide Progress, Loss;
  }
}
