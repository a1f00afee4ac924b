/**
 Fine-tuning jobs: user commands and training tasks over one map of jobs behind a
 reader-writer lock. Every command and every section of a task that takes the lock is one
 step. A task that finds its job paused waits inside its first section, so it keeps that
 section's read guard, and no writer gets in until it leaves.
 */
module FineTuning {
  import opened Wrappers
  import opened Float32

  type JobId = nat

  datatype Status = Pending | Running | Paused | Completed | Failed | Cancelled

  datatype Job = Job(status: Status, progress: real, epoch: nat, totalEpochs: nat, loss: real,
                     startedAt: Option<int>, completedAt: Option<int>)

  datatype Error = ModelNotFound | DatasetNotFound | JobNotFound | InvalidState(status: Status)

  /**
   Where a training task is: about to look at its job before an epoch, waiting for a resume,
   training, or after the loop.
   */
  datatype Pc = Checking(epoch: nat) | Parked(epoch: nat) | Training(epoch: nat) | Finishing | Ended

  predicate PcInRange(pc: Pc, total: nat) {
    match pc
    case Checking(e) => 0 < e <= total
    case Parked(e) => 0 < e <= total
    case Training(e) => 0 < e <= total
    case _ => true
  }

  datatype AnyTask = Task(job: JobId, total: nat, pc: Pc)

  type Task = t: AnyTask | PcInRange(t.pc, t.total) witness AnyTask.Task(0, 0, Ended)

  datatype State = State(jobs: map<JobId, Job>, tasks: seq<Task>)

  const Initial := State(map[], [])

  /** `found` and `readable` say whether the model is registered and the dataset exists. */
  datatype Command =
    | Create(id: JobId, epochs: nat, found: bool, readable: bool)
    | Start(id: JobId, now: int)
    | Pause(id: JobId)
    | Resume(id: JobId)
    | Cancel(id: JobId)
    | Delete(id: JobId)

  // ----- what a job shows -----

  /** `(epoch as f32 / epochs as f32) * 100.0` */
  function Progress(epoch: nat, total: nat): real
    requires 0 < epoch <= total
  {
    FloatProduct(FloatQuotient(epoch, total), 100.0)
  }

  /** `2.0 * (1.0 - (epoch as f32 / epochs as f32))` */
  function Loss(epoch: nat, total: nat): real
    requires 0 < epoch <= total
  {
    QuotientAtMostOne(epoch, total);
    RoundNonNegative(1.0 - FloatQuotient(epoch, total));
    FloatProduct(2.0, Round(1.0 - FloatQuotient(epoch, total)))
  }

  function NewJob(epochs: nat): Job {
    Job(Pending, 0.0, 0, epochs, 0.0, None, None)
  }

  // ----- commands -----

  /** The job after a command on it, or why the command is refused. */
  function OnJob(c: Command, job: Job): Result<Job, Error>
    requires !c.Create? && !c.Delete?
  {
    match c
    case Start(_, now) =>
      if job.status == Pending || job.status == Paused then Success(job.(status := Running, startedAt := Some(now)))
      else Failure(InvalidState(job.status))
    case Pause(_) =>
      if job.status == Running then Success(job.(status := Paused)) else Failure(InvalidState(job.status))
    case Resume(_) =>
      if job.status == Paused then Success(job.(status := Running)) else Failure(InvalidState(job.status))
    case Cancel(_) =>
      if job.status == Completed || job.status == Cancelled then Failure(InvalidState(job.status))
      else Success(job.(status := Cancelled))
  }

  function Changed(jobs: map<JobId, Job>, c: Command): Result<map<JobId, Job>, Error> {
    if c.Create? then
      if !c.found then Failure(ModelNotFound)
      else if !c.readable then Failure(DatasetNotFound)
      else Success(jobs[c.id := NewJob(c.epochs)])
    else if c.id !in jobs then Failure(JobNotFound)
    else if c.Delete? then
      if jobs[c.id].status == Running then Failure(InvalidState(Running)) else Success(jobs - {c.id})
    else
      var job :- OnJob(c, jobs[c.id]);
      Success(jobs[c.id := job])
  }

  function NewTask(id: JobId, total: nat): Task {
    AnyTask.Task(id, total, if total == 0 then Finishing else Checking(1))
  }

  function Apply(s: State, c: Command): (State, Result<(), Error>) {
    match Changed(s.jobs, c)
    case Failure(e) => (s, Failure(e))
    case Success(jobs) =>
      (State(jobs, if c.Start? then s.tasks + [NewTask(c.id, jobs[c.id].totalEpochs)] else s.tasks), Success(()))
  }

  // ----- the sections of a task -----

  /** The look at the job before epoch `e`. */
  function AfterCheck(jobs: map<JobId, Job>, id: JobId, e: nat): Pc {
    if id !in jobs then Training(e)
    else
      match jobs[id].status
      case Cancelled => Ended
      case Paused => Parked(e)
      case _ => Training(e)
  }

  /** One round of waiting for a resume. */
  function AfterWait(jobs: map<JobId, Job>, id: JobId, e: nat): Pc {
    if id !in jobs then Parked(e)
    else
      match jobs[id].status
      case Running => Training(e)
      case Cancelled => Ended
      case _ => Parked(e)
  }

  function Recorded(jobs: map<JobId, Job>, id: JobId, e: nat, total: nat): map<JobId, Job>
    requires 0 < e <= total
  {
    if id !in jobs then jobs
    else jobs[id := jobs[id].(epoch := e, progress := Progress(e, total), loss := Loss(e, total))]
  }

  function AfterRecord(e: nat, total: nat): Pc {
    if e < total then Checking(e + 1) else Finishing
  }

  function Finished(jobs: map<JobId, Job>, id: JobId, now: int): map<JobId, Job> {
    if id !in jobs then jobs
    else jobs[id := jobs[id].(status := Completed, progress := 100.0, completedAt := Some(now))]
  }

  // ----- the machine -----

  datatype Event = Do(command: Command) | Advance(task: nat, now: int)

  /** Some task waits for a resume and holds its read guard. */
  ghost predicate Frozen(s: State) {
    exists t :: 0 <= t < |s.tasks| && s.tasks[t].pc.Parked?
  }

  function MoveTo(s: State, t: nat, pc: Pc): State
    requires t < |s.tasks| && PcInRange(pc, s.tasks[t].total)
  {
    s.(tasks := s.tasks[t := s.tasks[t].(pc := pc)])
  }

  /** The next section of task `t`, if the lock lets it in. */
  ghost function TaskStep(s: State, t: nat, now: int): State
    requires t < |s.tasks|
  {
    var task := s.tasks[t];
    match task.pc
    case Checking(e) => MoveTo(s, t, AfterCheck(s.jobs, task.job, e))
    case Parked(e) => MoveTo(s, t, AfterWait(s.jobs, task.job, e))
    case Training(e) =>
      if Frozen(s) then s
      else MoveTo(s, t, AfterRecord(e, task.total)).(jobs := Recorded(s.jobs, task.job, e, task.total))
    case Finishing =>
      if Frozen(s) then s else MoveTo(s, t, Ended).(jobs := Finished(s.jobs, task.job, now))
    case Ended => s
  }

  /** A step that has to wait for the lock leaves the state as it is. */
  ghost function Next(s: State, e: Event): State {
    match e
    case Do(c) => if Frozen(s) then s else Apply(s, c).0
    case Advance(t, now) => if t < |s.tasks| then TaskStep(s, t, now) else s
  }

  ghost function After(s: State, es: seq<Event>): State {
    if es == [] then s else Next(After(s, es[..|es| - 1]), es[|es| - 1])
  }

  // ----- the service -----

  /** Each method is one critical section; those that write run only while no task is parked. */
  class FineTuningService {
    var jobs: map<JobId, Job>
    var tasks: seq<Task>

    ghost function Contents(): State
      reads this
    {
      State(jobs, tasks)
    }

    constructor ()
      ensures Contents() == Initial
    {
      jobs, tasks := map[], [];
    }

    method CreateJob(id: JobId, epochs: nat, found: bool, readable: bool) returns (r: Result<(), Error>)
      requires !Frozen(Contents())
      modifies this
      ensures (Contents(), r) == Apply(old(Contents()), Create(id, epochs, found, readable))
    {
      if !found {
        return Failure(ModelNotFound);
      }
      if !readable {
        return Failure(DatasetNotFound);
      }
      jobs := jobs[id := Job(Pending, 0.0, 0, epochs, 0.0, None, None)];
      return Success(());
    }

    method StartJob(id: JobId, now: int) returns (r: Result<(), Error>)
      requires !Frozen(Contents())
      modifies this
      ensures (Contents(), r) == Apply(old(Contents()), Start(id, now))
    {
      if id !in jobs {
        return Failure(JobNotFound);
      }
      var job := jobs[id];
      if job.status != Pending && job.status != Paused {
        return Failure(InvalidState(job.status));
      }
      jobs := jobs[id := job.(status := Running, startedAt := Some(now))];
      tasks := tasks + [NewTask(id, job.totalEpochs)];
      return Success(());
    }

    method PauseJob(id: JobId) returns (r: Result<(), Error>)
      requires !Frozen(Contents())
      modifies this
      ensures (Contents(), r) == Apply(old(Contents()), Pause(id))
    {
      if id !in jobs {
        return Failure(JobNotFound);
      }
      if jobs[id].status != Running {
        return Failure(InvalidState(jobs[id].status));
      }
      jobs := jobs[id := jobs[id].(status := Paused)];
      return Success(());
    }

    method ResumeJob(id: JobId) returns (r: Result<(), Error>)
      requires !Frozen(Contents())
      modifies this
      ensures (Contents(), r) == Apply(old(Contents()), Resume(id))
    {
      if id !in jobs {
        return Failure(JobNotFound);
      }
      if jobs[id].status != Paused {
        return Failure(InvalidState(jobs[id].status));
      }
      jobs := jobs[id := jobs[id].(status := Running)];
      return Success(());
    }

    method CancelJob(id: JobId) returns (r: Result<(), Error>)
      requires !Frozen(Contents())
      modifies this
      ensures (Contents(), r) == Apply(old(Contents()), Cancel(id))
    {
      if id !in jobs {
        return Failure(JobNotFound);
      }
      if jobs[id].status == Completed || jobs[id].status == Cancelled {
        return Failure(InvalidState(jobs[id].status));
      }
      jobs := jobs[id := jobs[id].(status := Cancelled)];
      return Success(());
    }

    method DeleteJob(id: JobId) returns (r: Result<(), Error>)
      requires !Frozen(Contents())
      modifies this
      ensures (Contents(), r) == Apply(old(Contents()), Delete(id))
    {
      if id !in jobs {
        return Failure(JobNotFound);
      }
      if jobs[id].status == Running {
        return Failure(InvalidState(Running));
      }
      jobs := jobs - {id};
      return Success(());
    }

    method GetJob(id: JobId) returns (r: Result<Job, Error>)
      ensures r.Success? <==> id in jobs
      ensures r.Success? ==> r.value == jobs[id]
      ensures r.Failure? ==> r.error == JobNotFound
    {
      if id !in jobs {
        return Failure(JobNotFound);
      }
      r := Success(jobs[id]);
    }

    /** The look at the job before an epoch; a task that parks keeps its read guard. */
    method CheckStatus(t: nat, ghost now: int)
      requires t < |tasks| && tasks[t].pc.Checking?
      modifies this
      ensures Contents() == TaskStep(old(Contents()), t, now)
    {
      var task := tasks[t];
      var next := Training(task.pc.epoch);
      if task.job in jobs {
        if jobs[task.job].status == Cancelled {
          next := Ended;
        } else if jobs[task.job].status == Paused {
          next := Parked(task.pc.epoch);
        }
      }
      tasks := tasks[t := task.(pc := next)];
    }

    method WaitForResume(t: nat, ghost now: int)
      requires t < |tasks| && tasks[t].pc.Parked?
      modifies this
      ensures Contents() == TaskStep(old(Contents()), t, now)
    {
      var task := tasks[t];
      var next := task.pc;
      if task.job in jobs {
        if jobs[task.job].status == Running {
          next := Training(task.pc.epoch);
        } else if jobs[task.job].status == Cancelled {
          next := Ended;
        }
      }
      tasks := tasks[t := task.(pc := next)];
    }

    method RecordEpoch(t: nat, ghost now: int)
      requires t < |tasks| && tasks[t].pc.Training? && !Frozen(Contents())
      modifies this
      ensures Contents() == TaskStep(old(Contents()), t, now)
    {
      hide Progress, Loss;
      var task := tasks[t];
      var id, epoch := task.job, task.pc.epoch;
      if id in jobs {
        jobs := jobs[id := jobs[id].(epoch := epoch)];
        jobs := jobs[id := jobs[id].(progress := Progress(epoch, task.total))];
        jobs := jobs[id := jobs[id].(loss := Loss(epoch, task.total))];
      }
      tasks := tasks[t := task.(pc := if epoch < task.total then Checking(epoch + 1) else Finishing)];
    }

    method Complete(t: nat, now: int)
      requires t < |tasks| && tasks[t].pc.Finishing? && !Frozen(Contents())
      modifies this
      ensures Contents() == TaskStep(old(Contents()), t, now)
    {
      var task := tasks[t];
      var id := task.job;
      if id in jobs {
        jobs := jobs[id := jobs[id].(status := Completed)];
        jobs := jobs[id := jobs[id].(progress := 100.0)];
        jobs := jobs[id := jobs[id].(completedAt := Some(now))];
      }
      tasks := tasks[t := task.(pc := Ended)];
    }

    /** The whole of task `t` when nobody else takes the lock: the loop over the epochs, then the completion. */
    method RunTraining(t: nat, id: JobId, total: nat, now: int)
      requires t < |tasks| && tasks[t] == NewTask(id, total) && !Frozen(Contents())
      requires id in jobs ==> jobs[id].status != Paused && jobs[id].status != Cancelled
      modifies this
      ensures jobs == Finished(if total == 0 then old(jobs) else Recorded(old(jobs), id, total, total), id, now)
      ensures tasks == old(tasks)[t := AnyTask.Task(id, total, Ended)]
    {
      hide Progress, Loss, Frozen;
      for e := 1 to total + 1
        invariant tasks == old(tasks)[t := AnyTask.Task(id, total, if e <= total then Checking(e) else Finishing)]
        invariant jobs == if e == 1 then old(jobs) else Recorded(old(jobs), id, e - 1, total)
      {
        CheckStatus(t, now);
        NotFrozen(old(Contents()), t, Contents());
        RecordEpoch(t, now);
      }
      NotFrozen(old(Contents()), t, Contents());
      Complete(t, now);
    }
  }

  lemma NotFrozen(before: State, t: nat, after: State)
    requires !Frozen(before) && t < |before.tasks| == |after.tasks|
    requires forall u :: 0 <= u < |before.tasks| && u != t ==> after.tasks[u] == before.tasks[u]
    requires !after.tasks[t].pc.Parked?
    ensures !Frozen(after)
  {
  }
}
