/**
 When a command on a job succeeds and what it changes, what each section of a task changes,
 and that a started job which is left alone is completed.
 */
module FineTuningSteps {
  import opened Wrappers
  import opened FineTuning
  import opened FineTuningProofs
  import opened FineTuningRestart

  // ----- commands -----

  /** A command succeeds if and only if the job is there and its status is one of those listed. */
  lemma CommandSucceedsIff(s: State, c: Command)
    ensures var jobs := s.jobs;
            Apply(s, c).1.Success? <==>
              match c
              case Create(_, _, found, readable) => found && readable
              case Start(id, _) => id in jobs && (jobs[id].status == Pending || jobs[id].status == Paused)
              case Pause(id) => id in jobs && jobs[id].status == Running
              case Resume(id) => id in jobs && jobs[id].status == Paused
              case Cancel(id) =>
                id in jobs && (jobs[id].status == Pending || jobs[id].status == Running || jobs[id].status == Paused
                               || jobs[id].status == Failed)
              case Delete(id) =>
                id in jobs && (jobs[id].status == Pending || jobs[id].status == Paused || jobs[id].status == Completed
                               || jobs[id].status == Failed || jobs[id].status == Cancelled)
  {
  }

  /** A refused command changes nothing and says why. */
  lemma RefusalIs(s: State, c: Command)
    requires Apply(s, c).1.Failure?
    ensures Apply(s, c).0 == s
    ensures var e := Apply(s, c).1.error;
            if c.Create? then e == if c.found then DatasetNotFound else ModelNotFound
            else if c.id !in s.jobs then e == JobNotFound
            else e == InvalidState(s.jobs[c.id].status)
  {
  }

  /** All other jobs are as they were. */
  ghost predicate OthersStay(s: State, s': State, id: JobId) {
    && (forall x :: x != id ==> (x in s'.jobs <==> x in s.jobs))
    && (forall x :: x in s.jobs && x != id ==> x in s'.jobs && s'.jobs[x] == s.jobs[x])
  }

  /** Of the job only status and starting time may differ. */
  predicate SameNumbers(a: Job, b: Job) {
    && b.progress == a.progress && b.epoch == a.epoch && b.totalEpochs == a.totalEpochs && b.loss == a.loss
    && b.completedAt == a.completedAt
  }

  /** A command that succeeds sets the status it is named for, and leaves everything else alone. */
  lemma CommandSets(s: State, c: Command)
    requires Apply(s, c).1.Success?
    ensures var s' := Apply(s, c).0;
            && OthersStay(s, s', c.id)
            && (!c.Start? ==> s'.tasks == s.tasks)
            && if c.Delete? then c.id !in s'.jobs
               else
                 && c.id in s'.jobs
                 && var job := s'.jobs[c.id];
                    match c
                    case Create(_, epochs, _, _) =>
                      job.status == Pending && job.totalEpochs == epochs && job.epoch == 0 && job.progress == 0.0
                      && job.loss == 0.0 && job.startedAt == None && job.completedAt == None
                    case Start(_, now) =>
                      job.status == Running && job.startedAt == Some(now) && SameNumbers(s.jobs[c.id], job)
                    case Pause(_) =>
                      job.status == Paused && job.startedAt == s.jobs[c.id].startedAt && SameNumbers(s.jobs[c.id], job)
                    case Resume(_) =>
                      job.status == Running && job.startedAt == s.jobs[c.id].startedAt && SameNumbers(s.jobs[c.id], job)
                    case Cancel(_) =>
                      job.status == Cancelled && job.startedAt == s.jobs[c.id].startedAt
                      && SameNumbers(s.jobs[c.id], job)
  {
  }

  /** A start adds one task, before its first epoch, or after its loop if there are no epochs. */
  lemma StartSpawns(s: State, id: JobId, now: int)
    requires Apply(s, Start(id, now)).1.Success?
    ensures var s' := Apply(s, Start(id, now)).0;
            && |s'.tasks| == |s.tasks| + 1 && s'.tasks[..|s.tasks|] == s.tasks
            && var task := s'.tasks[|s.tasks|];
               && task.job == id && task.total == s.jobs[id].totalEpochs
               && task.pc == if s.jobs[id].totalEpochs == 0 then Finishing else Checking(1)
  {
  }

  /** A resume that comes before any task has noticed the pause undoes it. */
  lemma ResumeUndoesPause(s: State, id: JobId)
    requires !Frozen(s) && Apply(s, Pause(id)).1.Success?
    ensures Apply(Next(s, Do(Pause(id))), Resume(id)).1.Success?
    ensures Next(Next(s, Do(Pause(id))), Do(Resume(id))) == s
  {
    var paused := Next(s, Do(Pause(id)));
    assert paused.tasks == s.tasks && !Frozen(paused);
    assert paused.jobs[id := s.jobs[id]] == s.jobs;
  }

  // ----- sections of a task -----

  /** Of the tasks only `t` may differ, and only in where it is. */
  ghost predicate OnlyMoves(s: State, s': State, t: nat, pc: Pc) {
    && t < |s.tasks| == |s'.tasks|
    && (forall u :: 0 <= u < |s.tasks| && u != t ==> s'.tasks[u] == s.tasks[u])
    && s'.tasks[t].job == s.tasks[t].job && s'.tasks[t].total == s.tasks[t].total && s'.tasks[t].pc == pc
  }

  /** Before an epoch a task ends if its job is cancelled, waits if it is paused, and trains otherwise. */
  lemma LookIs(s: State, t: nat, now: int)
    requires t < |s.tasks| && s.tasks[t].pc.Checking?
    ensures var s', id, e := Next(s, Advance(t, now)), s.tasks[t].job, s.tasks[t].pc.epoch;
            && s'.jobs == s.jobs
            && OnlyMoves(s, s', t, if id in s.jobs && s.jobs[id].status == Cancelled then Ended
                                   else if id in s.jobs && s.jobs[id].status == Paused then Parked(e)
                                   else Training(e))
  {
  }

  /** A waiting task goes on if its job runs again, ends if it is cancelled, and waits otherwise. */
  lemma WaitIs(s: State, t: nat, now: int)
    requires t < |s.tasks| && s.tasks[t].pc.Parked?
    ensures var s', id, e := Next(s, Advance(t, now)), s.tasks[t].job, s.tasks[t].pc.epoch;
            && s'.jobs == s.jobs
            && OnlyMoves(s, s', t, if id in s.jobs && s.jobs[id].status == Running then Training(e)
                                   else if id in s.jobs && s.jobs[id].status == Cancelled then Ended
                                   else Parked(e))
  {
  }

  /** An epoch is recorded in the job's epoch, progress and loss alone; then the next epoch follows, or the end. */
  lemma RecordIs(s: State, t: nat, now: int)
    requires t < |s.tasks| && s.tasks[t].pc.Training? && !Frozen(s)
    ensures var s', task := Next(s, Advance(t, now)), s.tasks[t];
            var id, e := task.job, task.pc.epoch;
            && OnlyMoves(s, s', t, if e == task.total then Finishing else Checking(e + 1))
            && OthersStay(s, s', id) && (id in s'.jobs <==> id in s.jobs)
            && (id in s.jobs ==>
                  var job, job' := s.jobs[id], s'.jobs[id];
                  && job'.epoch == e && job'.progress == Progress(e, task.total) && job'.loss == Loss(e, task.total)
                  && job'.status == job.status && job'.totalEpochs == job.totalEpochs
                  && job'.startedAt == job.startedAt && job'.completedAt == job.completedAt)
  {
    hide Progress, Loss;
  }

  /** After the loop the job becomes Completed at 100 percent, whatever its status was. */
  lemma FinishIs(s: State, t: nat, now: int)
    requires t < |s.tasks| && s.tasks[t].pc.Finishing? && !Frozen(s)
    ensures var s', id := Next(s, Advance(t, now)), s.tasks[t].job;
            && OnlyMoves(s, s', t, Ended) && OthersStay(s, s', id) && (id in s'.jobs <==> id in s.jobs)
            && (id in s.jobs ==>
                  var job, job' := s.jobs[id], s'.jobs[id];
                  && job'.status == Completed && job'.progress == 100.0 && job'.completedAt == Some(now)
                  && job'.epoch == job.epoch && job'.totalEpochs == job.totalEpochs && job'.loss == job.loss
                  && job'.startedAt == job.startedAt)
  {
  }

  // ----- a job that is left alone -----

  lemma StartedCanTrain(s: State, id: JobId, now: int)
    requires !Frozen(s) && Apply(s, Start(id, now)).1.Success? && s.jobs[id].totalEpochs > 0
    ensures CanTrain(Next(s, Do(Start(id, now))), |s.tasks|, id)
    ensures Next(s, Do(Start(id, now))).jobs[id].totalEpochs == s.jobs[id].totalEpochs
  {
    var s' := Next(s, Do(Start(id, now)));
    StartSpawns(s, id, now);
    forall u | 0 <= u < |s'.tasks| ensures !s'.tasks[u].pc.Parked? {
      assert u < |s.tasks| ==> s'.tasks[..|s.tasks|][u] == s.tasks[u];
    }
  }

  /** Every start that succeeds, left alone from then on, completes the job with all its epochs. */
  lemma StartedJobCompletes(s: State, id: JobId, now: int) returns (es: seq<Event>)
    requires !Frozen(s) && Apply(s, Start(id, now)).1.Success?
    ensures forall i :: 0 <= i < |es| ==> es[i] == Advance(|s.tasks|, 0)
    ensures var s' := After(Next(s, Do(Start(id, now))), es);
            && id in s'.jobs && s'.jobs[id].status == Completed
            && s'.jobs[id].totalEpochs == s.jobs[id].totalEpochs
            && (s.jobs[id].totalEpochs > 0 ==> s'.jobs[id].epoch == s.jobs[id].totalEpochs)
  {
    hide Next, CanTrain, Progress, Loss;
    var t, s1 := |s.tasks|, Next(s, Do(Start(id, now)));
    var last := Advance(t, 0);
    if s.jobs[id].totalEpochs == 0 {
      es := [] + [last];
      StartedWithoutEpochs(s, id, now);
      AfterOne(s1, [], last);
    } else {
      StartedCanTrain(s, id, now);
      var training := TrainToTheEnd(s1, t, id);
      es := training + [last];
      AfterOne(s1, training, last);
      TrainedCompletes(After(s1, training), t, id);
    }
  }

  lemma TrainedCompletes(s: State, t: nat, id: JobId)
    requires CanTrain(s, t, id) && s.tasks[t].pc.Finishing?
    ensures var s' := Next(s, Advance(t, 0));
            id in s'.jobs && s'.jobs[id].status == Completed && s'.jobs[id].totalEpochs == s.jobs[id].totalEpochs
            && s'.jobs[id].epoch == s.jobs[id].totalEpochs
  {
    FinishIs(s, t, 0);
  }

  lemma StartedWithoutEpochs(s: State, id: JobId, now: int)
    requires !Frozen(s) && Apply(s, Start(id, now)).1.Success? && s.jobs[id].totalEpochs == 0
    ensures var s' := Next(Next(s, Do(Start(id, now))), Advance(|s.tasks|, 0));
            id in s'.jobs && s'.jobs[id].status == Completed && s'.jobs[id].totalEpochs == 0
  {
    var s1 := Next(s, Do(Start(id, now)));
    StartSpawns(s, id, now);
    forall u | 0 <= u < |s1.tasks| ensures !s1.tasks[u].pc.Parked? {
      assert u < |s.tasks| ==> s1.tasks[..|s.tasks|][u] == s.tasks[u];
    }
    FinishIs(s1, |s.tasks|, 0);
  }
}
