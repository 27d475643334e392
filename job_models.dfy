/**
 * The job records of the task library: the job status, the stored job
 * document, one progress step, and the update records the store applies,
 * each with the defaults its fields have. Timestamps are passed in (`now`).
 */
module JobModels {
  import opened Wrappers
  import opened Values

  /** `JobStatus`: the status of a job or of one of its steps. */
  datatype JobStatus = Created | Running | Completed | Failed

  /** The string value of each status, as stored. */
  function StatusValue(s: JobStatus): string {
    match s
    case Created => "created"
    case Running => "running"
    case Completed => "completed"
    case Failed => "failed"
  }

  /** The status a stored string stands for, if any. */
  function ParseStatus(text: string): (r: Option<JobStatus>)
    ensures r.Some? ==> StatusValue(r.value) == text
  {
    if text == "created" then Some(Created)
    else if text == "running" then Some(Running)
    else if text == "completed" then Some(Completed)
    else if text == "failed" then Some(Failed)
    else None
  }

  /** Exactly four statuses: every status is read back from its value, and no other string is a status. */
  lemma StatusValues(s: JobStatus, text: string)
    ensures ParseStatus(StatusValue(s)) == Some(s)
    ensures ParseStatus(text).Some? <==> text in ["created", "running", "completed", "failed"]
  {
  }

  /** A status a job does not leave once reached. */
  predicate Terminal(s: JobStatus) {
    s == Completed || s == Failed
  }

  /**
   * One entry of `progress.steps`. Entries written by the store do not
   * carry `completed_at` until the step ends, hence the option.
   */
  datatype ProgressStep = ProgressStep(
    name: string,
    description: string,
    startedAt: string,
    completedAt: Option<string>,
    status: JobStatus)

  /** `JobProgressStep(...)` with `status` left to its default. */
  function NewProgressStep(name: string, description: string, startedAt: string, completedAt: string): (p: ProgressStep)
    ensures p.status == Created
    ensures p.name == name && p.description == description
    ensures p.startedAt == startedAt && p.completedAt == Some(completedAt)
  {
    ProgressStep(name, description, startedAt, Some(completedAt), Created)
  }

  /** `JobError`: the error stored with a failed job. */
  datatype JobError = JobError(code: string, message: string, additionalInfo: Option<seq<(string, string)>>)

  /**
   * A job document. `status` is `None` when the stored document has no
   * `status` key; `errorValue` and `resultValue` stand for the JSON texts
   * the store writes, which serialize them.
   */
  datatype JobRecord = JobRecord(
    taskId: string,
    parametersJson: string,
    userId: Option<string>,
    status: Option<JobStatus>,
    createdAt: string,
    startedAt: Option<string>,
    completedAt: Option<string>,
    errorValue: Option<JobError>,
    resultValue: Option<Json>,
    progress: Option<seq<ProgressStep>>)

  /** `CreateJob(task_id=..., parameters_json_value=...).model_dump()`: everything else takes its default. */
  function CreateJob(taskId: string, parametersJson: string, now: string): (j: JobRecord)
    ensures j.status == Some(Created)
    ensures j.taskId == taskId && j.parametersJson == parametersJson && j.createdAt == now
    ensures j.userId.None? && j.completedAt.None? && j.errorValue.None? && j.resultValue.None?
    ensures j.progress.None? && j.startedAt.None?
  {
    JobRecord(taskId, parametersJson, None, Some(Created), now, None, None, None, None, None)
  }

  /** The job-level updates: `StartJob`, `FailJob` and `FinishJob`. */
  datatype JobUpdate =
    | StartJob(status: JobStatus, startedAt: string, initialSteps: seq<ProgressStep>)
    | FailJob(status: JobStatus, error: JobError, completedAt: string)
    | FinishJob(status: JobStatus, result: Json, completedAt: string)

  /** The update's `result`: `FailJob` has none. */
  function UpdateResult(u: JobUpdate): Option<Json>
    requires !u.StartJob?
  {
    if u.FinishJob? then Some(u.result) else None
  }

  /** The update's `error`: `FinishJob` has none. */
  function UpdateError(u: JobUpdate): Option<JobError>
    requires !u.StartJob?
  {
    if u.FailJob? then Some(u.error) else None
  }

  /** `StartJob()`: running, with an empty step list. */
  function NewStartJob(now: string): (u: JobUpdate)
    ensures u.StartJob? && u.status == Running && u.startedAt == now && u.initialSteps == []
    ensures !Terminal(u.status)
  {
    StartJob(Running, now, [])
  }

  /** `FailJob(error=...)`: failed, with the error and no result. */
  function NewFailJob(error: JobError, now: string): (u: JobUpdate)
    ensures u.FailJob? && u.status == Failed && u.completedAt == now
    ensures UpdateError(u) == Some(error) && UpdateResult(u) == None
    ensures Terminal(u.status)
  {
    FailJob(Failed, error, now)
  }

  /** Why constructing an update record fails: a required field was `None`. */
  datatype ValidationError = ResultRequired

  /**
   * `FinishJob(result=...)`: completed, with the result and no error. The
   * result is required, so `None` fails validation.
   */
  function NewFinishJob(result: Option<Json>, now: string): (r: Result<JobUpdate, ValidationError>)
    ensures result.None? <==> r == Err(ResultRequired)
    ensures r.Ok? ==> r.value.FinishJob? && r.value.status == Completed && r.value.completedAt == now
    ensures r.Ok? ==> UpdateResult(r.value) == result && UpdateError(r.value) == None
    ensures r.Ok? ==> Terminal(r.value.status)
  {
    if result.None? then Err(ResultRequired) else Ok(FinishJob(Completed, result.value, now))
  }

  /** The step-level updates: `StartJobStep`, `FailJobStep` and `FinishJobStep`. */
  datatype StepUpdate =
    | StartJobStep(name: string, description: string, status: JobStatus, startedAt: string)
    | FailJobStep(status: JobStatus, completedAt: string)
    | FinishJobStep(status: JobStatus, completedAt: string)

  /** `StartJobStep(name=..., description=...)`: running, not completed. */
  function NewStartJobStep(name: string, description: string, now: string): (u: StepUpdate)
    ensures u.StartJobStep? && u.status == Running && u.startedAt == now
    ensures u.name == name && u.description == description
  {
    StartJobStep(name, description, Running, now)
  }

  /** `FailJobStep()`: failed. */
  function NewFailJobStep(now: string): (u: StepUpdate)
    ensures u.FailJobStep? && u.status == Failed && u.completedAt == now
  {
    FailJobStep(Failed, now)
  }

  /** `FinishJobStep()`: completed. */
  function NewFinishJobStep(now: string): (u: StepUpdate)
    ensures u.FinishJobStep? && u.status == Completed && u.completedAt == now
  {
    FinishJobStep(Completed, now)
  }
}
