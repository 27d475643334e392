/**
 * The `task` and `step` decorators of the task library: the store updates
 * they issue around the decorated function. The task's own code is
 * abstracted as the steps it calls, in order, and how it ends (it returns
 * a result or raises); a step's own code as whether it returns or raises.
 */
module TaskLifecycle {
  import opened Wrappers
  import opened Values
  import opened TextUtils
  import opened JobModels
  import opened JobStore

  /** How a step's own function ends. */
  datatype StepOutcome = StepReturns | StepRaises(code: string, message: string)

  /** One call of a decorated step: its name, its description and how its function ends. */
  datatype StepCall = StepCall(name: string, description: string, outcome: StepOutcome)

  /** How the task function ends once its steps have run: it returns a result (possibly `None`) or raises. */
  datatype Ending = Returns(result: Option<Json>) | Raises(code: string, message: string)

  /** The decorated task function: the steps it calls, then its ending. */
  datatype TaskBody = TaskBody(steps: seq<StepCall>, ending: Ending)

  /** What escapes a wrapper. */
  datatype TaskFailure =
    | StoreFailed(error: StoreError)                               // raised by the store
    | StepFailed(stepName: string, code: string, message: string)  // `StepExpection`
    | UnboundJobUpdate                                             // line 74 after a `StepExpection`
    | ResultValidation                                             // `FinishJob(result=None)`, line 71

  /**
   * The timestamps one run of a task reads, each from its own
   * `get_timestamp` call: when the job is created, when it starts, when
   * its `i`-th step starts and ends, and when the task ends.
   */
  datatype Clock = Clock(
    created: string,
    started: string,
    stepStarted: nat -> string,
    stepEnded: nat -> string,
    ended: string)

  /** The progress entry a step leaves once it has ended: started when it was appended, completed when it ended. */
  function StepRecord(call: StepCall, startedAt: string, completedAt: string): (p: ProgressStep)
    ensures p.name == call.name && p.description == call.description
    ensures p.startedAt == startedAt && p.completedAt == Some(completedAt)
    ensures call.outcome.StepReturns? <==> p.status == Completed
    ensures call.outcome.StepRaises? <==> p.status == Failed
  {
    ProgressStep(call.name, call.description, startedAt, Some(completedAt), if call.outcome.StepReturns? then Completed else Failed)
  }

  /** The progress entries a sequence of steps leaves, the `i`-th with the `i`-th step's times. */
  function StepRecords(calls: seq<StepCall>, clock: Clock): (ps: seq<ProgressStep>)
    ensures |ps| == |calls|
    ensures forall i :: 0 <= i < |calls| ==> ps[i] == StepRecord(calls[i], clock.stepStarted(i), clock.stepEnded(i))
  {
    seq(|calls|, i requires 0 <= i < |calls| => StepRecord(calls[i], clock.stepStarted(i), clock.stepEnded(i)))
  }

  /** The position of the first step that raises, or the number of steps when none does. */
  function FailingStep(calls: seq<StepCall>): (k: nat)
    ensures k <= |calls|
    ensures forall j :: 0 <= j < k ==> calls[j].outcome.StepReturns?
    ensures k < |calls| ==> calls[k].outcome.StepRaises?
  {
    if calls == [] then 0
    else if calls[0].outcome.StepRaises? then 0
    else 1 + FailingStep(calls[1..])
  }

  /** The steps that actually run: all of them, or up to and including the first that raises. */
  function StepsRun(calls: seq<StepCall>): seq<StepCall> {
    if FailingStep(calls) < |calls| then calls[..FailingStep(calls) + 1] else calls
  }

  /** The job after the given entries were appended to its steps by starting and ending steps. */
  function AppendSteps(job: JobRecord, records: seq<ProgressStep>): JobRecord {
    if records == [] then job else job.(progress := Some(StepsOf(job) + records))
  }

  /** Appending in two goes is appending once. */
  lemma AppendStepsSnoc(job: JobRecord, records: seq<ProgressStep>, p: ProgressStep)
    ensures AppendSteps(job, records + [p]) == AppendSteps(job, records).(progress := Some(StepsOf(AppendSteps(job, records)) + [p]))
  {
    if records != [] {
      assert StepsOf(job) + records + [p] == StepsOf(job) + (records + [p]);
    } else {
      assert records + [p] == [p];
    }
  }

  /** The job the `task` wrapper works on: the stored one, or the one `create_or_check_job` creates. */
  function InitialJob(jobs: map<string, JobRecord>, jobId: string, taskId: string, parametersJson: string,
                      createdAt: string): JobRecord {
    if jobId in jobs then jobs[jobId] else CreateJob(taskId, parametersJson, createdAt)
  }

  /** The task can run: its job is absent or still `created`. */
  predicate Runnable(jobs: map<string, JobRecord>, jobId: string) {
    jobId !in jobs || jobs[jobId].status == Some(Created)
  }

  /** The job once `StartJob` was written and the steps ran. */
  function RanJob(job: JobRecord, body: TaskBody, clock: Clock): JobRecord {
    AppendSteps(ApplyJobUpdate(job, NewStartJob(clock.started)), StepRecords(StepsRun(body.steps), clock))
  }

  /** The job once the task function's ending was written: `FailJob`, `FinishJob`, or nothing for a `None` result. */
  function Ended(job: JobRecord, ending: Ending, endedAt: string): JobRecord {
    match ending
    case Raises(code, message) => ApplyJobUpdate(job, NewFailJob(JobError(code, message, None), endedAt))
    case Returns(result) =>
      if result.None? then job else ApplyJobUpdate(job, NewFinishJob(result, endedAt).value)
  }

  /** What the wrapper returns or raises for the task function's ending. */
  function EndingOutcome(ending: Ending): Result<Option<Json>, TaskFailure> {
    match ending
    case Raises(_, _) => Ok(None)
    case Returns(result) => if result.None? then Err(ResultValidation) else Ok(result)
  }

  /** The job document the `task` wrapper leaves behind. */
  function FinalJob(job: JobRecord, body: TaskBody, clock: Clock): (r: JobRecord)
    ensures r.taskId == job.taskId && r.parametersJson == job.parametersJson && r.createdAt == job.createdAt
    ensures r.startedAt == Some(clock.started)
    ensures r.status.Some? && r.status.value != Created
  {
    AppendStepsKeeps(ApplyJobUpdate(job, NewStartJob(clock.started)), StepRecords(StepsRun(body.steps), clock));
    var ran := RanJob(job, body, clock);
    if FailingStep(body.steps) < |body.steps| then ran else Ended(ran, body.ending, clock.ended)
  }

  /** What the `task` wrapper returns or raises once its job was accepted. */
  function TaskOutcome(body: TaskBody): (r: Result<Option<Json>, TaskFailure>)
    ensures r.Err? <==> FailingStep(body.steps) < |body.steps| || body.ending == Returns(None)
    ensures r.Err? ==> r.error == UnboundJobUpdate || r.error == ResultValidation
    ensures r.Ok? ==> r.value == (if body.ending.Returns? then body.ending.result else None)
  {
    if FailingStep(body.steps) < |body.steps| then Err(UnboundJobUpdate) else EndingOutcome(body.ending)
  }

  /**
   * The `step` wrapper: with the context set and the job stored, the step
   * is appended as running, its function runs, and the last step is then
   * marked completed (the call returns) or failed (it raises
   * `StepExpection` with the step's name and the error).
   */
  method RunStep(store: JobStore, slot: ContextSlot, call: StepCall, startedAt: string, completedAt: string) returns (r: Result<(), TaskFailure>)
    modifies store, slot
    ensures slot.ctx == old(slot.ctx)
    ensures old(slot.ctx).None? ==> r == Err(StoreFailed(ContextNotSet)) && store.jobs == old(store.jobs)
    ensures old(slot.ctx).Some? && old(slot.ctx).value.jobId !in old(store.jobs) ==>
      r == Err(StoreFailed(JobNotFound(old(slot.ctx).value.jobId))) && store.jobs == old(store.jobs)
    ensures old(slot.ctx).Some? && old(slot.ctx).value.jobId in old(store.jobs) ==>
      var jobId := old(slot.ctx).value.jobId;
      store.jobs == old(store.jobs)[jobId := AppendSteps(old(store.jobs)[jobId], [StepRecord(call, startedAt, completedAt)])] &&
      r == match call.outcome
        case StepReturns => Ok(())
        case StepRaises(code, message) => Err(StepFailed(call.name, code, message))
  {
    var c := slot.GetContext(None);
    if c.Err? {
      return Err(StoreFailed(c.error));
    }
    var jobId := c.value.jobId;
    ghost var jobs0 := store.jobs;
    var started := store.UpdateJobStepStatus(jobId, NewStartJobStep(call.name, call.description, startedAt));
    if started.Err? {
      // the job is gone, so marking the step failed raises the same error
      var _ := store.UpdateJobStepStatus(jobId, NewFailJobStep(completedAt));
      return Err(StoreFailed(started.error));
    }
    ghost var job := jobs0[jobId];
    ghost var running := store.jobs[jobId];
    StartStepAppends(job, NewStartJobStep(call.name, call.description, startedAt));
    match call.outcome {
      case StepRaises(code, message) =>
        EndStepOverwritesLast(running, NewFailJobStep(completedAt));
        var _ := store.UpdateJobStepStatus(jobId, NewFailJobStep(completedAt));
        EndedStep(job, running, store.jobs[jobId], call, startedAt, completedAt);
        return Err(StepFailed(call.name, code, message));
      case StepReturns =>
        EndStepOverwritesLast(running, NewFinishJobStep(completedAt));
        var _ := store.UpdateJobStepStatus(jobId, NewFinishJobStep(completedAt));
        EndedStep(job, running, store.jobs[jobId], call, startedAt, completedAt);
        return Ok(());
    }
  }

  /** Starting a step and ending it as its outcome says appends its record. */
  lemma EndedStep(job: JobRecord, running: JobRecord, ended: JobRecord, call: StepCall, startedAt: string, completedAt: string)
    requires running.progress == Some(StepsOf(job) + [ProgressStep(call.name, call.description, startedAt, None, Running)])
    requires running.(progress := job.progress) == job
    requires ended.progress.Some? && |ended.progress.value| == |running.progress.value|
    requires ended.progress.value[..|StepsOf(job)|] == StepsOf(job)
    requires var last := ended.progress.value[|StepsOf(job)|];
      last.status == StepRecord(call, startedAt, completedAt).status && last.completedAt == Some(completedAt) &&
      last.(status := Running, completedAt := None) == ProgressStep(call.name, call.description, startedAt, None, Running)
    requires ended.(progress := running.progress) == running
    ensures ended == AppendSteps(job, [StepRecord(call, startedAt, completedAt)])
  {
    var steps := ended.progress.value;
    assert steps == steps[..|StepsOf(job)|] + [steps[|StepsOf(job)|]];
  }

  /**
   * The `task` wrapper, for the task `name`: it stores the context,
   * creates or checks the job, writes `StartJob`, runs the task function
   * and writes `FinishJob` (it returned a result) or `FailJob` (it raised
   * something other than `StepExpection`).
   */
  method RunTask(store: JobStore, slot: ContextSlot, name: string, jobId: string, parametersJson: string,
                 body: TaskBody, clock: Clock) returns (r: Result<Option<Json>, TaskFailure>)
    modifies store, slot
    ensures slot.ctx == Some(Context(jobId, Normalized(name), parametersJson))
    ensures !Runnable(old(store.jobs), jobId) ==>
      r == Err(StoreFailed(NotInCreatedStatus(jobId, old(store.jobs)[jobId].status.GetOr(Failed)))) &&
      store.jobs == old(store.jobs)
    ensures Runnable(old(store.jobs), jobId) ==>
      r == TaskOutcome(body) &&
      store.jobs == old(store.jobs)[jobId :=
        FinalJob(InitialJob(old(store.jobs), jobId, Normalized(name), parametersJson, clock.created), body, clock)]
  {
    var taskId := Normalized(name);
    r := RunJob(store, slot, taskId, jobId, parametersJson, body, clock);
  }

  /** The `task` wrapper once the task's name was normalized to `taskId`. */
  method RunJob(store: JobStore, slot: ContextSlot, taskId: string, jobId: string, parametersJson: string,
                body: TaskBody, clock: Clock) returns (r: Result<Option<Json>, TaskFailure>)
    modifies store, slot
    ensures slot.ctx == Some(Context(jobId, taskId, parametersJson))
    ensures !Runnable(old(store.jobs), jobId) ==>
      r == Err(StoreFailed(NotInCreatedStatus(jobId, old(store.jobs)[jobId].status.GetOr(Failed)))) &&
      store.jobs == old(store.jobs)
    ensures Runnable(old(store.jobs), jobId) ==>
      r == TaskOutcome(body) &&
      store.jobs == old(store.jobs)[jobId := FinalJob(InitialJob(old(store.jobs), jobId, taskId, parametersJson, clock.created), body, clock)]
  {
    var ctx := slot.SetupContext(jobId, taskId, parametersJson);
    var created := store.CreateOrCheckJob(ctx.jobId, ctx.taskId, ctx.parametersJson, clock.created);
    if created.Err? {
      return Err(StoreFailed(created.error));
    }
    ghost var job := InitialJob(old(store.jobs), jobId, taskId, parametersJson, clock.created);
    assert store.jobs == old(store.jobs)[jobId := job];
    r := RunAccepted(store, slot, body, clock);
    assert store.jobs == old(store.jobs)[jobId := job][jobId := FinalJob(job, body, clock)];
  }

  /**
   * The `task` wrapper once the job was accepted: `StartJob` is written, the task
   * function runs its steps and ends, and its ending is written, unless a
   * step raised.
   */
  method RunAccepted(store: JobStore, slot: ContextSlot, body: TaskBody, clock: Clock)
    returns (r: Result<Option<Json>, TaskFailure>)
    requires slot.ctx.Some? && slot.ctx.value.jobId in store.jobs
    modifies store, slot
    ensures slot.ctx == old(slot.ctx)
    ensures var jobId := old(slot.ctx).value.jobId;
      r == TaskOutcome(body) && store.jobs == old(store.jobs)[jobId := FinalJob(old(store.jobs)[jobId], body, clock)]
  {
    var jobId := slot.ctx.value.jobId;
    ghost var job := store.jobs[jobId];
    // the job is stored, so writing `StartJob` cannot fail
    var _ := store.UpdateJobStatus(jobId, NewStartJob(clock.started));
    var failed := RunSteps(store, slot, body.steps, clock);
    assert store.jobs == old(store.jobs)[jobId := RanJob(job, body, clock)];
    if failed {
      // `job_update` was never assigned: reading its status raises
      return Err(UnboundJobUpdate);
    }
    r := FinishTask(store, jobId, body.ending, clock.ended);
  }

  /**
   * Lines 62-76 once no step raised: `FailJob` with the exception's class
   * name and message when the task function raised, `FinishJob` with its
   * result when it returned one; returning `None` fails validation.
   */
  method FinishTask(store: JobStore, jobId: string, ending: Ending, endedAt: string)
    returns (r: Result<Option<Json>, TaskFailure>)
    requires jobId in store.jobs
    modifies store
    ensures r == EndingOutcome(ending)
    ensures store.jobs == old(store.jobs)[jobId := Ended(old(store.jobs)[jobId], ending, endedAt)]
  {
    match ending {
      case Raises(code, message) =>
        var _ := store.UpdateJobStatus(jobId, NewFailJob(JobError(code, message, None), endedAt));
        return Ok(None);
      case Returns(result) =>
        var finish := NewFinishJob(result, endedAt);
        if finish.Err? {
          return Err(ResultValidation);
        }
        var _ := store.UpdateJobStatus(jobId, finish.value);
        return Ok(result);
    }
  }

  /**
   * The steps the task function calls, run through the `step` wrapper
   * until one raises `StepExpection`, which ends the task function.
   */
  method RunSteps(store: JobStore, slot: ContextSlot, steps: seq<StepCall>, clock: Clock) returns (failed: bool)
    requires slot.ctx.Some? && slot.ctx.value.jobId in store.jobs
    modifies store, slot
    ensures slot.ctx == old(slot.ctx)
    ensures failed <==> FailingStep(steps) < |steps|
    ensures var jobId := old(slot.ctx).value.jobId;
      store.jobs == old(store.jobs)[jobId := AppendSteps(old(store.jobs)[jobId], StepRecords(StepsRun(steps), clock))]
  {
    var jobId := slot.ctx.value.jobId;
    ghost var base := store.jobs;
    ghost var job := store.jobs[jobId];
    assert steps[..0] == [];
    var i := 0;
    failed := false;
    while i < |steps| && !failed
      invariant 0 <= i <= |steps|
      invariant slot.ctx == old(slot.ctx)
      invariant !failed ==> i <= FailingStep(steps)
      invariant failed ==> i == FailingStep(steps) + 1
      invariant store.jobs == base[jobId := AppendSteps(job, StepRecords(steps[..i], clock))]
    {
      var s := RunStep(store, slot, steps[i], clock.stepStarted(i), clock.stepEnded(i));
      AppendStepsSnoc(job, StepRecords(steps[..i], clock), StepRecord(steps[i], clock.stepStarted(i), clock.stepEnded(i)));
      assert StepRecords(steps[..i + 1], clock) == StepRecords(steps[..i], clock) + [StepRecord(steps[i], clock.stepStarted(i), clock.stepEnded(i))];
      failed := s.Err?;
      i := i + 1;
    }
    assert steps[..i] == StepsRun(steps);
  }

  /** Appending entries leaves everything but the step list alone. */
  lemma AppendStepsKeeps(job: JobRecord, records: seq<ProgressStep>)
    ensures StepsOf(AppendSteps(job, records)) == StepsOf(job) + records
    ensures AppendSteps(job, records).(progress := job.progress) == job
  {
    if records == [] {
      assert StepsOf(job) + records == StepsOf(job);
    }
  }

  /**
   * The job ends `completed` exactly when no step raised and the task
   * returned a result, `failed` exactly when no step raised and the task
   * raised, and is left `running` otherwise: after a failed step, or when
   * the task returned `None`.
   */
  lemma FinalStatus(job: JobRecord, body: TaskBody, clock: Clock)
    ensures var f := FinalJob(job, body, clock).status; var clean := FailingStep(body.steps) == |body.steps|;
      (f == Some(Completed) <==> clean && body.ending.Returns? && body.ending.result.Some?) &&
      (f == Some(Failed) <==> clean && body.ending.Raises?) &&
      (f == Some(Running) <==> !clean || body.ending == Returns(None))
  {
    AppendStepsKeeps(ApplyJobUpdate(job, NewStartJob(clock.started)), StepRecords(StepsRun(body.steps), clock));
  }

  /**
   * The job's steps are its earlier steps followed by one entry per step
   * run, in call order: every step up to the first that raised, which is
   * recorded as failed; all the others are recorded as completed.
   */
  lemma FinalSteps(job: JobRecord, body: TaskBody, clock: Clock)
    ensures |StepsOf(FinalJob(job, body, clock))| >= |StepsOf(job)|
    ensures StepsOf(FinalJob(job, body, clock))[..|StepsOf(job)|] == StepsOf(job)
    ensures var added := StepsOf(FinalJob(job, body, clock))[|StepsOf(job)|..]; var k := FailingStep(body.steps);
      |added| == (if k < |body.steps| then k + 1 else |body.steps|) &&
      (forall i :: 0 <= i < |added| ==> added[i].name == body.steps[i].name) &&
      (forall i :: 0 <= i < |added| ==>
        added[i].startedAt == clock.stepStarted(i) && added[i].completedAt == Some(clock.stepEnded(i))) &&
      (forall i :: 0 <= i < |added| && i != k ==> added[i].status == Completed) &&
      (k < |body.steps| ==> added[k].status == Failed)
  {
    var started := ApplyJobUpdate(job, NewStartJob(clock.started));
    var records := StepRecords(StepsRun(body.steps), clock);
    AppendStepsKeeps(started, records);
    var f := FinalJob(job, body, clock);
    assert StepsOf(f) == StepsOf(job) + records;
    assert StepsOf(f)[..|StepsOf(job)|] == StepsOf(job);
    assert StepsOf(f)[|StepsOf(job)|..] == records;
    RecordsOfRun(body, clock);
  }

  /** The records of a run: one per step up to the first that raises, with the clock's times for each position. */
  lemma RecordsOfRun(body: TaskBody, clock: Clock)
    ensures var added := StepRecords(StepsRun(body.steps), clock); var k := FailingStep(body.steps);
      |added| == (if k < |body.steps| then k + 1 else |body.steps|) &&
      (forall i :: 0 <= i < |added| ==> added[i].name == body.steps[i].name) &&
      (forall i :: 0 <= i < |added| ==>
        added[i].startedAt == clock.stepStarted(i) && added[i].completedAt == Some(clock.stepEnded(i))) &&
      (forall i :: 0 <= i < |added| && i != k ==> added[i].status == Completed) &&
      (k < |body.steps| ==> added[k].status == Failed)
  {
  }

  /**
   * Only `status`, `started_at`, `completed_at`, the result, the error and
   * the steps change; a completed job holds the returned result and no
   * error, a failed one the raised error (code and message, no additional
   * information) and no result; a job left running has no completion time.
   */
  lemma FinalFields(job: JobRecord, body: TaskBody, clock: Clock)
    ensures var f := FinalJob(job, body, clock);
      f.taskId == job.taskId && f.parametersJson == job.parametersJson && f.userId == job.userId &&
      f.createdAt == job.createdAt && f.startedAt == Some(clock.started)
    ensures var f := FinalJob(job, body, clock);
      f.status == Some(Completed) ==>
        TaskOutcome(body).Ok? && f.resultValue == TaskOutcome(body).value && f.errorValue.None? && f.completedAt == Some(clock.ended)
    ensures var f := FinalJob(job, body, clock);
      f.status == Some(Failed) ==>
        body.ending.Raises? && TaskOutcome(body) == Ok(None) && f.resultValue.None? &&
        f.errorValue == Some(JobError(body.ending.code, body.ending.message, None)) && f.completedAt == Some(clock.ended)
    ensures var f := FinalJob(job, body, clock);
      f.status == Some(Running) ==> TaskOutcome(body).Err? && f.completedAt == job.completedAt
  {
    AppendStepsKeeps(ApplyJobUpdate(job, NewStartJob(clock.started)), StepRecords(StepsRun(body.steps), clock));
    FinalStatus(job, body, clock);
  }
}
