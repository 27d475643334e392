/**
 * The job store of the task library: the jobs collection, held as a map
 * from job id to job document, and the three operations that create a job
 * and update its status and its steps; plus the process-wide context slot.
 */
module JobStore {
  import opened Wrappers
  import opened JobModels

  /** The `ValueError`s, `TypeError`/`KeyError`/`IndexError`s and the `RuntimeError` the store raises. */
  datatype StoreError =
    | NotInCreatedStatus(jobId: string, status: JobStatus)   // line 106
    | JobNotFound(jobId: string)                             // lines 124, 150
    | ProgressMissing                                        // `["progress"]["steps"]` on a job without progress
    | NoStepToEnd                                            // `steps[-1]` on an empty step list
    | ContextNotSet                                          // line 54

  /** The steps a job has, a missing progress counting as none (`progress or {}`, `.get("steps", [])`). */
  function StepsOf(job: JobRecord): seq<ProgressStep> {
    job.progress.GetOr([])
  }

  /**
   * The document after `update_job_status`: `StartJob` writes `status` and
   * `started_at`; `FailJob` and `FinishJob` write `status`, `completed_at`,
   * the result and the error.
   */
  function ApplyJobUpdate(job: JobRecord, u: JobUpdate): (r: JobRecord)
    ensures r.status == Some(u.status)
    ensures r.taskId == job.taskId && r.parametersJson == job.parametersJson && r.userId == job.userId
    ensures r.createdAt == job.createdAt && r.progress == job.progress
  {
    match u
    case StartJob(status, startedAt, _) => job.(status := Some(status), startedAt := Some(startedAt))
    case _ => job.(status := Some(u.status), completedAt := Some(u.completedAt),
                   resultValue := UpdateResult(u), errorValue := UpdateError(u))
  }

  /** `StartJob` changes `status` and `started_at` and nothing else; its step list is not written. */
  lemma StartJobChangesOnly(job: JobRecord, u: JobUpdate)
    requires u.StartJob?
    ensures ApplyJobUpdate(job, u).status == Some(u.status)
    ensures ApplyJobUpdate(job, u).startedAt == Some(u.startedAt)
    ensures ApplyJobUpdate(job, u).(status := job.status, startedAt := job.startedAt) == job
  {
  }

  /**
   * `FailJob` and `FinishJob` set exactly `status`, `completed_at`, the
   * result and the error; a failed job has no result and a finished one no
   * error.
   */
  lemma EndJobChangesExactly(job: JobRecord, u: JobUpdate)
    requires !u.StartJob?
    ensures var j := ApplyJobUpdate(job, u);
      j.status == Some(u.status) && j.completedAt == Some(u.completedAt) &&
      j.resultValue == UpdateResult(u) && j.errorValue == UpdateError(u)
    ensures u.FailJob? ==> ApplyJobUpdate(job, u).resultValue.None? && ApplyJobUpdate(job, u).errorValue == Some(u.error)
    ensures u.FinishJob? ==> ApplyJobUpdate(job, u).errorValue.None? && ApplyJobUpdate(job, u).resultValue == Some(u.result)
    ensures ApplyJobUpdate(job, u).(status := job.status, completedAt := job.completedAt,
      resultValue := job.resultValue, errorValue := job.errorValue) == job
  {
  }

  /** The step list with its last entry given a new status and completion time. */
  function EndLast(steps: seq<ProgressStep>, status: JobStatus, completedAt: string): seq<ProgressStep>
    requires steps != []
  {
    steps[..|steps| - 1] + [steps[|steps| - 1].(status := status, completedAt := Some(completedAt))]
  }

  /**
   * The document after `update_job_step_status`, or the error a job
   * without progress or without steps makes the end of a step raise.
   */
  function ApplyStepUpdate(job: JobRecord, u: StepUpdate): (r: Result<JobRecord, StoreError>)
    ensures u.StartJobStep? ==> r.Ok?
    ensures !u.StartJobStep? ==> (job.progress.None? <==> r == Err(ProgressMissing))
    ensures !u.StartJobStep? ==> (job.progress == Some([]) <==> r == Err(NoStepToEnd))
    ensures r.Err? ==> r.error == ProgressMissing || r.error == NoStepToEnd
  {
    match u
    case StartJobStep(name, description, status, startedAt) =>
      Ok(job.(progress := Some(StepsOf(job) + [ProgressStep(name, description, startedAt, None, status)])))
    case _ =>
      if job.progress.None? then Err(ProgressMissing)
      else if job.progress.value == [] then Err(NoStepToEnd)
      else Ok(job.(progress := Some(EndLast(job.progress.value, u.status, u.completedAt))))
  }

  /**
   * Starting a step appends exactly one entry, with the update's name,
   * description, status and start time and no completion time; the earlier
   * steps and every other field stay as they were.
   */
  lemma StartStepAppends(job: JobRecord, u: StepUpdate)
    requires u.StartJobStep?
    ensures var j := ApplyStepUpdate(job, u).value;
      j.progress.Some? && |j.progress.value| == |StepsOf(job)| + 1 &&
      j.progress.value[..|StepsOf(job)|] == StepsOf(job)
    ensures var last := ApplyStepUpdate(job, u).value.progress.value[|StepsOf(job)|];
      last.name == u.name && last.description == u.description && last.status == u.status &&
      last.startedAt == u.startedAt && last.completedAt.None?
    ensures ApplyStepUpdate(job, u).value.(progress := job.progress) == job
  {
    var steps := ApplyStepUpdate(job, u).value.progress.value;
    assert steps[..|StepsOf(job)|] == StepsOf(job);
  }

  /**
   * Ending a step overwrites only `status` and `completed_at` of the last
   * entry; its name, description and start time, the earlier steps and
   * every other field stay as they were.
   */
  lemma EndStepOverwritesLast(job: JobRecord, u: StepUpdate)
    requires !u.StartJobStep?
    requires job.progress.Some? && job.progress.value != []
    ensures ApplyStepUpdate(job, u).Ok?
    ensures var steps := job.progress.value; var j := ApplyStepUpdate(job, u).value;
      j.progress.Some? && |j.progress.value| == |steps| &&
      j.progress.value[..|steps| - 1] == steps[..|steps| - 1]
    ensures var steps := job.progress.value; var last := ApplyStepUpdate(job, u).value.progress.value[|steps| - 1];
      last.status == u.status && last.completedAt == Some(u.completedAt) &&
      last.(status := steps[|steps| - 1].status, completedAt := steps[|steps| - 1].completedAt) == steps[|steps| - 1]
    ensures ApplyStepUpdate(job, u).value.(progress := job.progress) == job
  {
    var steps := job.progress.value;
    var ended := EndLast(steps, u.status, u.completedAt);
    assert ended[..|steps| - 1] == steps[..|steps| - 1];
  }

  /** The jobs collection. */
  class JobStore {
    var jobs: map<string, JobRecord>

    constructor(initial: map<string, JobRecord>)
      ensures jobs == initial
    {
      jobs := initial;
    }

    /**
     * `create_or_check_job`: an existing job must still be `created` (a
     * missing status counts as `failed`) and yields `true` with no write;
     * an absent job is stored as a fresh `CreateJob` and yields `false`.
     */
    method CreateOrCheckJob(jobId: string, taskId: string, parametersJson: string, now: string)
      returns (r: Result<bool, StoreError>)
      modifies this
      ensures jobId in old(jobs) && old(jobs)[jobId].status == Some(Created) ==> r == Ok(true) && jobs == old(jobs)
      ensures jobId in old(jobs) && old(jobs)[jobId].status != Some(Created) ==>
        r == Err(NotInCreatedStatus(jobId, old(jobs)[jobId].status.GetOr(Failed))) && jobs == old(jobs)
      ensures jobId !in old(jobs) ==>
        r == Ok(false) && jobs == old(jobs)[jobId := CreateJob(taskId, parametersJson, now)]
    {
      if jobId in jobs {
        var currStatus := jobs[jobId].status.GetOr(Failed);
        if currStatus != Created {
          return Err(NotInCreatedStatus(jobId, currStatus));
        }
        return Ok(true);
      }
      jobs := jobs[jobId := CreateJob(taskId, parametersJson, now)];
      var existed := false;
      return Ok(existed);
    }

    /** `update_job_status`: an unknown job raises; otherwise the update's fields are written. */
    method UpdateJobStatus(jobId: string, u: JobUpdate) returns (r: Result<(), StoreError>)
      modifies this
      ensures jobId !in old(jobs) ==> r == Err(JobNotFound(jobId)) && jobs == old(jobs)
      ensures jobId in old(jobs) ==> r == Ok(()) && jobs == old(jobs)[jobId := ApplyJobUpdate(old(jobs)[jobId], u)]
    {
      if jobId !in jobs {
        return Err(JobNotFound(jobId));
      }
      var job := jobs[jobId];
      if u.StartJob? {
        job := job.(status := Some(u.status), startedAt := Some(u.startedAt));
      } else {
        var result := if u.FinishJob? then Some(u.result) else None;
        var error := if u.FailJob? then Some(u.error) else None;
        job := job.(status := Some(u.status), completedAt := Some(u.completedAt),
                    resultValue := result, errorValue := error);
      }
      jobs := jobs[jobId := job];
      return Ok(());
    }

    /**
     * `update_job_step_status`: an unknown job raises; a start appends a
     * step, an end overwrites the last step's status and completion time.
     */
    method UpdateJobStepStatus(jobId: string, u: StepUpdate) returns (r: Result<(), StoreError>)
      modifies this
      ensures jobId !in old(jobs) ==> r == Err(JobNotFound(jobId)) && jobs == old(jobs)
      ensures jobId in old(jobs) && ApplyStepUpdate(old(jobs)[jobId], u).Err? ==>
        r == Err(ApplyStepUpdate(old(jobs)[jobId], u).error) && jobs == old(jobs)
      ensures jobId in old(jobs) && ApplyStepUpdate(old(jobs)[jobId], u).Ok? ==>
        r == Ok(()) && jobs == old(jobs)[jobId := ApplyStepUpdate(old(jobs)[jobId], u).value]
    {
      if jobId !in jobs {
        return Err(JobNotFound(jobId));
      }
      var job := jobs[jobId];
      var steps: seq<ProgressStep>;
      if u.StartJobStep? {
        steps := if job.progress.Some? then job.progress.value else [];
        steps := steps + [ProgressStep(u.name, u.description, u.startedAt, None, u.status)];
      } else {
        if job.progress.None? {
          return Err(ProgressMissing);
        }
        steps := job.progress.value;
        if |steps| == 0 {
          return Err(NoStepToEnd);
        }
        var last := steps[|steps| - 1];
        steps := steps[|steps| - 1 := last.(status := u.status, completedAt := Some(u.completedAt))];
        assert steps == EndLast(job.progress.value, u.status, u.completedAt);
      }
      jobs := jobs[jobId := job.(progress := Some(steps))];
      return Ok(());
    }
  }

  /** The execution context: the job, its task and its parameters. The Firestore client is the store itself. */
  datatype Context = Context(jobId: string, taskId: string, parametersJson: string)

  /** The module-level slot `_get_context` keeps its context in. */
  class ContextSlot {
    var ctx: Option<Context>

    constructor()
      ensures ctx == None
    {
      ctx := None;
    }

    /** `_get_context`: a given context is stored and returned; otherwise the stored one, if any. */
    method GetContext(given: Option<Context>) returns (r: Result<Context, StoreError>)
      modifies this
      ensures given.Some? ==> ctx == given && r == Ok(given.value)
      ensures given.None? ==> ctx == old(ctx)
      ensures given.None? && old(ctx).None? ==> r == Err(ContextNotSet)
      ensures given.None? && old(ctx).Some? ==> r == Ok(old(ctx).value)
    {
      if given.Some? {
        ctx := given;
      } else if ctx.None? {
        return Err(ContextNotSet);
      }
      return Ok(ctx.value);
    }

    /** `setup_context`: builds the context and stores it. */
    method SetupContext(jobId: string, taskId: string, parametersJson: string) returns (c: Context)
      modifies this
      ensures c == Context(jobId, taskId, parametersJson) && ctx == Some(c)
    {
      var r := GetContext(Some(Context(jobId, taskId, parametersJson)));
      c := r.value;
    }
  }
}
