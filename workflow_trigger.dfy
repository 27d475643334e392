/**
 * The Pub/Sub-triggered function that starts a workflow's Cloud Run job:
 * which job to run, the arguments it gets, and the job's full name.
 */
module WorkflowTrigger {
  import opened Wrappers
  import opened Strings
  import opened Values

  /** Errors raised while reading a message. */
  datatype TriggerError =
    | NotAnObject             // `.get` on a message that is not a dict
    | NotAString              // `.upper()` on a workflow that is not a string
    | ParametersNotADict      // line 62

  /** `key` with `--` in front, unless it already starts with it. */
  function FlagFor(key: string): (f: string)
    ensures StartsWith(f, "--")
    ensures StartsWith(key, "--") ==> f == key
    ensures !StartsWith(key, "--") ==> f == "--" + key
  {
    if StartsWith(key, "--") then key else "--" + key
  }

  /** The arguments the first `n` parameters give: each key's flag, then `str(value)`. */
  function TriggerArgs(entries: seq<(string, Json)>, show: Json -> string): (args: seq<string>)
    ensures |args| == 2 * |entries|
    decreases |entries|
  {
    if entries == [] then []
    else
      var (key, value) := entries[|entries| - 1];
      TriggerArgs(entries[..|entries| - 1], show) + [FlagFor(key), PyStr(value, show)]
  }

  /** Two arguments per key, in key order: the key as a flag, then its value's text. */
  lemma {:induction false} TriggerArgsPairs(entries: seq<(string, Json)>, show: Json -> string)
    ensures |TriggerArgs(entries, show)| == 2 * |entries|
    ensures forall i :: 0 <= i < |entries| ==>
      TriggerArgs(entries, show)[2 * i] == FlagFor(entries[i].0) &&
      TriggerArgs(entries, show)[2 * i + 1] == PyStr(entries[i].1, show)
    decreases |entries|
  {
    if entries != [] {
      var init := entries[..|entries| - 1];
      var last := entries[|entries| - 1];
      TriggerArgsPairs(init, show);
      var before := TriggerArgs(init, show);
      var args := TriggerArgs(entries, show);
      assert args == before + [FlagFor(last.0), PyStr(last.1, show)];
      forall i | 0 <= i < |entries|
        ensures args[2 * i] == FlagFor(entries[i].0) && args[2 * i + 1] == PyStr(entries[i].1, show)
      {
        if i < |init| {
          assert init[i] == entries[i] && args[2 * i] == before[2 * i] && args[2 * i + 1] == before[2 * i + 1];
        } else {
          assert 2 * i == |before| && entries[i] == last;
        }
      }
    }
  }

  /** The arguments a message's `parameters` give, or the error reading them raises. */
  function WorkflowParameters(message: seq<(string, Json)>, show: Json -> string): Result<seq<string>, TriggerError> {
    var parameters := Get(message, "parameters");
    if parameters.None? || !Truthy(parameters.value) then Ok([])
    else if parameters.value.JObj? then Ok(TriggerArgs(parameters.value.entries, show))
    else Err(ParametersNotADict)
  }

  /**
   * `parse_workflow_parameters`: a missing or falsy `parameters` gives no
   * arguments, a dict gives two per key, anything else is an error.
   */
  method ParseWorkflowParameters(message: seq<(string, Json)>, show: Json -> string)
    returns (r: Result<seq<string>, TriggerError>)
    ensures r == WorkflowParameters(message, show)
    ensures Get(message, "parameters").None? || !Truthy(Get(message, "parameters").value) ==> r == Ok([])
    ensures Get(message, "parameters").Some? && Truthy(Get(message, "parameters").value) ==>
      match Get(message, "parameters").value
      case JObj(entries) => r == Ok(TriggerArgs(entries, show))
      case _ => r == Err(ParametersNotADict)
  {
    var parameters := Get(message, "parameters");
    if parameters.None? || !Truthy(parameters.value) {
      return Ok([]);
    }
    if !parameters.value.JObj? {
      return Err(ParametersNotADict);
    }
    var entries := parameters.value.entries;
    var flattened: seq<string> := [];
    for i := 0 to |entries|
      invariant flattened == TriggerArgs(entries[..i], show)
    {
      assert entries[..i + 1][..i] == entries[..i];
      var (key, value) := entries[i];
      key := if StartsWith(key, "--") then key else "--" + key;
      flattened := flattened + [key, PyStr(value, show)];
    }
    assert entries[..|entries|] == entries;
    return Ok(flattened);
  }

  /**
   * `f"{workflow.upper().replace('-', '_')}_JOB_NAME"`: one character per
   * character of the workflow, none of them `-`, then `_JOB_NAME`.
   */
  function JobEnvKey(workflow: string): (k: string)
    ensures |k| == |workflow| + 9
    ensures k[|workflow|..] == "_JOB_NAME"
    ensures forall i :: 0 <= i < |workflow| ==> k[i] != '-'
  {
    ReplaceAllChar(Upper(workflow), '-', '_');
    ReplaceAll(Upper(workflow), "-", "_") + "_JOB_NAME"
  }

  /** The key is the workflow, upper-cased, with every `-` turned into `_`, followed by `_JOB_NAME`. */
  lemma JobEnvKeyShape(workflow: string)
    ensures forall i :: 0 <= i < |workflow| ==>
      JobEnvKey(workflow)[i] == if workflow[i] == '-' then '_' else UpperChar(workflow[i])
  {
    ReplaceAllChar(Upper(workflow), '-', '_');
  }

  /**
   * `determine_workflow_to_trigger`: the environment variable named after
   * the message's `workflow`; a missing or non-string workflow raises.
   */
  function DetermineWorkflow(message: Json, env: map<string, string>): (r: Result<Option<string>, TriggerError>)
    ensures !message.JObj? ==> r == Err(NotAnObject)
    ensures message.JObj? && !(Get(message.entries, "workflow").Some? && Get(message.entries, "workflow").value.JStr?) ==>
      r == Err(NotAString)
    ensures r.Ok? ==> var w := Get(message.entries, "workflow").value.s;
      (JobEnvKey(w) in env ==> r.value == Some(env[JobEnvKey(w)])) &&
      (JobEnvKey(w) !in env ==> r.value == None)
  {
    if !message.JObj? then Err(NotAnObject)
    else
      var workflow := Get(message.entries, "workflow");
      if workflow.None? || !workflow.value.JStr? then Err(NotAString)
      else
        var key := JobEnvKey(workflow.value.s);
        Ok(if key in env then Some(env[key]) else None)
  }

  /** `response.text.split('/')[-1]`: the region after the last `/` of the metadata answer. */
  function Region(text: string): (r: string)
    ensures '/' !in r
    ensures '/' !in text ==> r == text
  {
    LastSegmentProperties(text, '/');
    LastSegment(text, '/')
  }

  /** The metadata server's answer `projects/<number>/regions/<region>` yields `<region>`. */
  lemma RegionOfAnswer(number: string, region: string)
    requires '/' !in region
    ensures Region("projects/" + number + "/regions/" + region) == region
  {
    var prefix := "projects/" + number + "/regions";
    assert "projects/" + number + "/regions/" + region == prefix + ['/'] + region;
    LastSegmentAfter(prefix, '/', region);
  }

  /**
   * `f"projects/{project_id}/locations/{region}/jobs/{workflow_name}"`: with
   * no `/` in its parts, the name splits back into them.
   */
  function FullJobName(project: string, region: string, job: string): (name: string)
    ensures '/' !in project && '/' !in region && '/' !in job ==>
      Split(name, '/') == ["projects", project, "locations", region, "jobs", job]
  {
    var name := "projects/" + project + "/locations/" + region + "/jobs/" + job;
    assert '/' !in project && '/' !in region && '/' !in job ==>
      Split(name, '/') == ["projects", project, "locations", region, "jobs", job] by {
      if '/' !in project && '/' !in region && '/' !in job {
        JobPathSplit(project, region, job);
      }
    }
    name
  }

  /** The job path built from parts without `/` splits back into them. */
  lemma JobPathSplit(project: string, region: string, job: string)
    requires '/' !in project && '/' !in region && '/' !in job
    ensures Split("projects/" + project + "/locations/" + region + "/jobs/" + job, '/') ==
      ["projects", project, "locations", region, "jobs", job]
  {
    var s5 := "jobs" + ['/'] + job;
    SplitOne("jobs", job);
    var s4 := region + ['/'] + s5;
    SplitCons(region, s5);
    var s3 := "locations" + ['/'] + s4;
    SplitCons("locations", s4);
    var s2 := project + ['/'] + s3;
    SplitCons(project, s3);
    SplitCons("projects", s2);
    JobPathParts(project, region, job);
  }

  lemma JobPathParts(project: string, region: string, job: string)
    ensures "projects/" + project + "/locations/" + region + "/jobs/" + job ==
      "projects" + ['/'] + (project + ['/'] + ("locations" + ['/'] + (region + ['/'] + ("jobs" + ['/'] + job))))
  {
  }

  lemma SplitOne(a: string, b: string)
    requires '/' !in a && '/' !in b
    ensures Split(a + ['/'] + b, '/') == [a, b]
  {
    SplitAround(a, '/', b);
    SplitWithoutSeparator(a, '/');
    SplitWithoutSeparator(b, '/');
  }

  lemma SplitCons(a: string, rest: string)
    requires '/' !in a
    ensures Split(a + ['/'] + rest, '/') == [a] + Split(rest, '/')
  {
    SplitAround(a, '/', rest);
    SplitWithoutSeparator(a, '/');
  }

  /** The job run request: the job's full name and its arguments. */
  datatype RunRequest = RunRequest(name: string, args: seq<string>)

  /**
   * `workflow_trigger`, given the decoded message (`None` when decoding
   * failed), the environment, the project id and the metadata answer
   * (`None` when the request failed). Every error is caught and logged, so
   * the outcome is the job request made, if any.
   */
  method TriggerWorkflow(message: Option<Json>, env: map<string, string>, project: string,
                         metadata: Option<string>, show: Json -> string)
    returns (request: Option<RunRequest>)
    ensures request.Some? ==>
      message.Some? && message.value.JObj? && Truthy(message.value) &&
      DetermineWorkflow(message.value, env).Ok? &&
      DetermineWorkflow(message.value, env).value.Some? &&
      DetermineWorkflow(message.value, env).value.value != "" &&
      metadata.Some? && Region(metadata.value) != "" &&
      request.value.name == FullJobName(project, Region(metadata.value), DetermineWorkflow(message.value, env).value.value)
    ensures request.Some? ==>
      WorkflowParameters(message.value.entries, show).Ok? &&
      request.value.args == WorkflowParameters(message.value.entries, show).value
    ensures message.None? || !Truthy(message.value) ==> request.None?
    ensures message.Some? && message.value.JObj? && WorkflowParameters(message.value.entries, show).Err? ==> request.None?
    ensures (message.Some? && message.value.JObj? && Truthy(message.value) &&
      DetermineWorkflow(message.value, env).Ok? && DetermineWorkflow(message.value, env).value.Some? &&
      DetermineWorkflow(message.value, env).value.value != "" &&
      WorkflowParameters(message.value.entries, show).Ok? &&
      metadata.Some? && Region(metadata.value) != "") ==> request.Some?
  {
    if message.None? || !Truthy(message.value) {
      return None;
    }
    var workflowName := DetermineWorkflow(message.value, env);
    if workflowName.Err? {
      return None;
    }
    var parameters := ParseWorkflowParameters(message.value.entries, show);
    if parameters.Err? {
      return None;
    }
    if workflowName.value.None? || workflowName.value.value == "" {
      return None;
    }
    if metadata.None? {
      return None;
    }
    var region := Region(metadata.value);
    if region == "" {
      return None;
    }
    return Some(RunRequest(FullJobName(project, region, workflowName.value.value), parameters.value));
  }
}
