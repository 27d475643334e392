# tasks: a verified model of the task and workflow core

This project models the core of the `tasks` repository in Dafny and proves
properties of the model. The repository runs background jobs and
code-generation workflows on a cloud platform. The parts modelled here are:

- **Schema-driven type synthesis** (`server/app/schema_validation.py`).
  A JSON Schema document, as pydantic emits it, is turned into a type
  descriptor. The steps are:
  - register the enum definitions;
  - order the record-like `$defs` so that each comes after the records it
    references;
  - build one record type per definition in that order;
  - build the root record.

  Types are the `Ty` datatype. The name-to-type table is a `map<string, Ty>`.
- **The job store** (`tasks/core/tasks/db.py`) is a class holding the jobs
  collection as a map from job id to job document. It has three operations:
  create or check a job, update a job's status, and update its steps. A
  second class holds the process-wide execution context.
- **The task/step lifecycle** (`tasks/core/tasks/tasks.py`). The `task`
  and `step` wrappers issue an ordered sequence of store updates around a
  task function. The task function is modelled as the steps it calls and
  how it ends.
- **The job records** (`tasks/core/tasks/models.py`): the job status and the
  update records, each with its defaults.
- **Argument construction.**
  - `api/app/tasks.py` flattens nested parameters to command-line
    arguments.
  - `infrastructure/workflow_trigger/main.py` flattens one level of
    parameters, and derives the job environment key and the full job name.
- **String rules.**
  - `sanitize_string` and `normalize_string` (`tasks/core/tasks/utils.py`).
  - Git token injection and the URL-scheme dispatch
    (`workflows/tasks/git.py`).
  - Feature-branch naming and the bounded PlusCoder retry loop
    (`workflows/flows/push_feature/main.py`).
- **The two webhook adapters** turn an HTTP request into a workflow-trigger
  message. Modelled: the method check, the parameter filter, the
  required-field check and the payload.

Modules follow the source files:

| Module | Source |
|---|---|
| `Wrappers`, `Strings`, `Values` | Shared definitions: `Option`/`Result`, Python string operations, JSON values. |
| `Schema`, `TypeResolution`, `SubmodelOrder`, `ModelBuilder` | `server/app/schema_validation.py` |
| `ApiTasks` | `api/app/tasks.py` |
| `WorkflowTrigger` | `infrastructure/workflow_trigger/main.py` |
| `TextUtils` | `tasks/core/tasks/utils.py` |
| `GitUrl` | `workflows/tasks/git.py` |
| `PushFeature` | `workflows/flows/push_feature/main.py` |
| `JobModels` | `tasks/core/tasks/models.py` |
| `JobStore` | `tasks/core/tasks/db.py` |
| `TaskLifecycle` | `tasks/core/tasks/tasks.py` |
| `Webhooks` | both `push_feature_request/main.py` adapters under `infrastructure/` |

Conventions used throughout the model:

- A Python dict is a sequence of key/value pairs, so key order is kept. A
  lookup returns the first pair with the key. Where distinct keys matter,
  the contract requires `UniqueKeys`.
- A Python exception is an `Err` of a `Result`.
- Wall-clock timestamps, `randint`, the environment, and the answers of
  remote services are parameters.
- Python's `str()` of a non-string value is a `show` function parameter.

## Model

| member | source | states |
|---|---|---|
| Strings.ReplaceAllWithoutMatch | workflows/tasks/git.py:29 | `str.replace` of a pattern that does not occur leaves the string unchanged. |
| Strings.ReplaceAllAtStart | workflows/tasks/git.py:29 | Replacing at a leading occurrence emits the replacement, then replaces in the rest. |
| Strings.ReplaceAllChar | tasks/core/tasks/utils.py:59-60 | Replacing one character by another keeps the length and changes exactly the positions holding that character. |
| Strings.Strip | tasks/core/tasks/utils.py:61 | `str.strip()` gives a string with no surrounding whitespace. It is no longer than the input, uses only the input's characters, and leaves an already stripped string unchanged. |
| Strings.StripIdempotent | tasks/core/tasks/utils.py:61 | Stripping twice is stripping once. |
| Strings.JoinSplit | infrastructure/workflow_trigger/main.py:31 | `sep.join(s.split(sep)) == s`: splitting loses nothing. |
| Strings.SplitAround | infrastructure/workflow_trigger/main.py:31 | Splitting `a + sep + b` splits `a` and `b` separately. |
| Strings.LastSegmentProperties | infrastructure/workflow_trigger/main.py:31 | `split(sep)[-1]` contains no separator, and is the whole string when there is none. |
| Strings.LastSegmentAfter | server/app/schema_validation.py:112-114 | The last segment of `prefix/name` is `name`. |
| Values.Get | server/app/schema_validation.py:82 | `dict.get`: `None` exactly when no pair has the key; otherwise some pair holds the key and the value. |
| Values.GetFirst | server/app/schema_validation.py:82 | The value found belongs to the first pair with the key. |
| Values.GetUnique | server/app/schema_validation.py:76 | With distinct keys, looking up the key of the i-th pair gives that pair's value. |
| Values.SetKey | api/app/tasks.py:31-33 | `d[key] = v`: an existing key is overwritten in place; a new key is appended; other pairs are kept. |
| Values.SetKeyGet | api/app/tasks.py:31-33 | After `d[key] = v`, looking up `key` gives `v`. |
| Schema.DefKeyInjective | server/app/schema_validation.py:66-77 | `#/$defs/<a>` and `#/$defs/<b>` are equal exactly when `a == b`. |
| TypeResolution.Dedup | server/app/schema_validation.py:84 | The members of a union, de-duplicated: same member set, no repeats. |
| TypeResolution.Or | server/app/schema_validation.py:84 | `a \| b`: fails only for `None \| None`. Otherwise it is flat, its members are those of `a` and of `b`, and a union result has no repeats and never one member. Members are compared as values, not by class identity. |
| TypeResolution.BaseType | server/app/schema_validation.py:81-86 | The type before container refinement is flat whenever the table is. |
| TypeResolution.FoldUnion | server/app/schema_validation.py:84 | The left fold of an `anyOf` stays flat. |
| TypeResolution.Resolve | server/app/schema_validation.py:80-93 | A resolved type is flat whenever the table is. |
| TypeResolution.ResolveRef | server/app/schema_validation.py:81-82 | A `$ref` resolves to the table entry for the exact ref string. A ref not in the table resolves to `Any`, not to an error. |
| TypeResolution.ResolveTypeName | server/app/schema_validation.py:85-86 | Without `$ref`/`anyOf`, `type` (default `"any"`) is looked up. An unknown type name is an error, and a missing `type` gives `Any`. |
| TypeResolution.ResolveAnyOfSmall | server/app/schema_validation.py:83-84 | An empty `anyOf` fails (`reduce` without an initial value). A single member yields that member's type. |
| TypeResolution.ResolveContainers | server/app/schema_validation.py:87-93 | `object` with `additionalProperties` gives `Dict` of the value type, and `array` with `items` gives `List` of the item type. Without them the result is the plain dict or list type. |
| TypeResolution.FoldUnionMembers | server/app/schema_validation.py:84 | The members of the folded union are exactly the members of the `anyOf` members' resolved types. |
| TypeResolution.ParseFields | server/app/schema_validation.py:96-102 | The field-building loop computes `FieldsOf` of the `properties`. |
| TypeResolution.FieldsOfOk | server/app/schema_validation.py:96-102 | Fields succeed iff every property resolves. |
| TypeResolution.FieldsOfFields | server/app/schema_validation.py:96-102 | When they succeed there is one field per property, in order, with its name, resolved type and description. A field has a default iff its node has `default`, and then it is that value. |
| TypeResolution.FieldsOfFailureStops | server/app/schema_validation.py:99-100 | The first property that fails to resolve decides the error. |
| TypeResolution.DefineEnumTypes | server/app/schema_validation.py:58-67 | The loop computes `EnumTable` of the `$defs`. |
| TypeResolution.EnumTableKeys | server/app/schema_validation.py:58-67 | The table has exactly one key per `$defs` entry holding `enum`, keyed `#/$defs/<name>`. |
| TypeResolution.EnumTableValues | server/app/schema_validation.py:58-67 | With distinct `$defs` names, the entry of each item holding `enum` is an enum of that item's values, in order. |
| SubmodelOrder.RecordDefs | server/app/schema_validation.py:108 | The record-like definitions are exactly the `$defs` entries with `properties`. |
| SubmodelOrder.RemoveFirst | server/app/schema_validation.py:136 | `list.remove(x)` removes one occurrence of `x`. |
| SubmodelOrder.TargetsSpec | server/app/schema_validation.py:115-116 | `depends[m]` lists the targets of `m`'s edges, and `enabler[m]` lists their sources. |
| SubmodelOrder.SourcesTargetsCount | server/app/schema_validation.py:115-116 | `m` occurs in `enabler[c]` as often as `c` occurs in `depends[m]`. |
| SubmodelOrder.GraphInNames | server/app/schema_validation.py:112 | Every edge joins two record-like definitions. Refs to other definitions create no edge. |
| SubmodelOrder.AddRecordEdges | server/app/schema_validation.py:110-116 | One record's inner loop adds exactly that record's direct-ref edges to both tables. |
| SubmodelOrder.BuildDependencyTables | server/app/schema_validation.py:105-116 | The two tables match the dependency graph. The only edges are direct `properties.*.$ref` to record-like definitions, not refs nested in `anyOf`/`items`. |
| SubmodelOrder.ReleaseDependents | server/app/schema_validation.py:131-132 | Removing the emitted model from each dependent's `depends` list removes every occurrence of it, and nothing else. |
| SubmodelOrder.Descend | server/app/schema_validation.py:121-127 | Descending to the first pending dependency either finds a cycle (the graph is not acyclic) or keeps the sort invariant with one more model seen. |
| SubmodelOrder.Emit | server/app/schema_validation.py:128-140 | Emitting a model whose dependencies are all out appends it. It either ends with a permutation of the names that respects every dependency, or continues with strictly fewer names waiting. |
| SubmodelOrder.WalkStep | server/app/schema_validation.py:122-125 | Stepping down to a dependency not yet seen keeps the walk a dependency path, with the previous model added to `seen` and the same number of names waiting. |
| SubmodelOrder.WalkCycle | server/app/schema_validation.py:126-127 | Stepping down to a dependency already seen on the walk means the graph has a cycle. |
| SubmodelOrder.NothingPending | server/app/schema_validation.py:121-130 | An empty `depends` list means every dependency of the model is already emitted. |
| SubmodelOrder.RespectsSnoc | server/app/schema_validation.py:130 | Appending a model whose dependencies are all emitted keeps every model after its dependencies. |
| SubmodelOrder.ReleaseStep | server/app/schema_validation.py:131-132 | Each enabler still has the emitted model in its `depends` list when its turn comes, and removing it lowers that count by one. |
| SubmodelOrder.NextWaiting | server/app/schema_validation.py:134-136 | A model that references the one just emitted is still waiting, so `remove` finds it. |
| SubmodelOrder.NextModel | server/app/schema_validation.py:134-140 | The next model is an enabler of the emitted one, else the last waiting name. The sort stops exactly when neither exists, and then every name has been emitted once. Otherwise strictly fewer names wait. |
| SubmodelOrder.EmitInv | server/app/schema_validation.py:129-138 | After an emission, `seen` is reset and a new walk starts at the next model with the sort invariant intact. |
| SubmodelOrder.TablesEmpty | server/app/schema_validation.py:106-107 | The empty `defaultdict` tables match the graph with no edges. |
| SubmodelOrder.EdgesOfStep | server/app/schema_validation.py:109-116 | Processing one more record appends exactly its direct-ref edges after the earlier ones. |
| SubmodelOrder.DescendSelf | server/app/schema_validation.py:121-125 | With `A` its own only dependency and nothing else waiting, a descent from `A` returns to `A` with `seen == {A}`. |
| SubmodelOrder.SelfLoop | server/app/schema_validation.py:112-116 | The single edge `A -> A` makes `A` its own dependency and is a cycle. |
| SubmodelOrder.SortSubmodels | server/app/schema_validation.py:104-141 | `_get_sorted_submodels` with the cycle error raised. It fails with `pop` on an empty list exactly when there is no record-like definition. On success it returns every record-like name exactly once, each after every definition it references. Any other failure is a circular dependency, and then the graph has a cycle. |
| SubmodelOrder.TopoImpliesAcyclic | server/app/schema_validation.py:104-141 | An order in which every definition follows its references exists only for an acyclic graph. |
| SubmodelOrder.SortedIsAcyclic | server/app/schema_validation.py:104-141 | An ordering of the record-like names that respects every dependency proves the graph acyclic. |
| SubmodelOrder.OrderedSubmodels | server/app/schema_validation.py:104-141 | The corrected ordering succeeds iff the graph is acyclic, with no records giving `[]`. Its result is a permutation of the record-like names that respects every dependency. |
| SubmodelOrder.DescendAsWritten | server/app/schema_validation.py:121-127 | One descent step as written: the `ValueError` is built and dropped, and the same number of names stays waiting. |
| SubmodelOrder.SelfReferenceNeverEnds | server/app/schema_validation.py:120-127 | For a definition whose property refers to itself, the as-written step returns to the same state, so the loop never ends. |
| ModelBuilder.BuildModel | server/app/schema_validation.py:50-54 | The record type is named `schema["title"]` (required), with doc `description` or `""` and fields `FieldsOf(properties)`. It fails exactly when the title is missing or a field does not resolve. |
| ModelBuilder.SubmodelTableSnoc | server/app/schema_validation.py:47-48 | A successful registration is the registration of all but the last submodel, plus that submodel's record built against it. |
| ModelBuilder.DefKeysMembers | server/app/schema_validation.py:77 | The registered keys are exactly `#/$defs/<name>` for the registered names. |
| ModelBuilder.SubmodelTableKeys | server/app/schema_validation.py:47-77 | Registering the ordered submodels adds exactly the keys `#/$defs/<name>`. |
| ModelBuilder.SubmodelTableFailureStops | server/app/schema_validation.py:47-48 | The first submodel that fails stops the registration with its error. |
| ModelBuilder.RegisteredModel | server/app/schema_validation.py:47-78 | The i-th submodel is built with the table of everything registered before it. |
| ModelBuilder.EarlierDependency | server/app/schema_validation.py:105-132 | In a dependency-respecting order, each definition a submodel references comes at an earlier position. |
| ModelBuilder.SubmodelSeesDependencies | server/app/schema_validation.py:47-77 | Each submodel sees the primitives, the enums and every record it references through a property's own `$ref`, which are the edges of the sort. Such a `$ref` resolves to that dependency's registered record. |
| ModelBuilder.NestedRefBuiltLater | server/app/schema_validation.py:82-116 | A `$ref` nested in `anyOf` (pydantic's `Optional[B]`) is not an edge. With `$defs` `B` then `A`, where `A.b` is `Optional[B]`, the order that builds `A` before `B` respects every edge, and `A.b` then resolves to `Any \| None`. |
| ModelBuilder.OptionalBWithoutB | server/app/schema_validation.py:81-84 | Against a table without `#/$defs/B`, `Optional[B]` resolves to `Any \| None`. |
| ModelBuilder.DefineSubmodelTypes | server/app/schema_validation.py:70-78 | `_define_submodel_types` returns the one entry `#/$defs/<submodel>` built from that definition with the table passed in. |
| ModelBuilder.RegisterSubmodels | server/app/schema_validation.py:47-48 | The registration loop computes `SubmodelTable`. |
| ModelBuilder.CreateModelFromSchema | server/app/schema_validation.py:33-55 | As written. With a table given, the root is built against it (nested calls do not re-read `$defs`). Without one, a schema with no record-like definition fails with `pop` from an empty list, and a cyclic graph gives the circular-dependency error. An acyclic graph with records gives the root built after the base table, the enums and the submodels in dependency order. |
| ModelBuilder.CreateModelFromSchemaCorrected | server/app/schema_validation.py:33-55 | Corrected driver. A cyclic graph gives the circular-dependency error, and an acyclic one gives the root built after the submodels in dependency order. A schema with no record-like definition builds its root against the base table and the enums. |
| ApiTasks.Flatten | api/app/tasks.py:9-20 | The flattening has even length: flags and values come in pairs. |
| ApiTasks.FlattenFlags | api/app/tasks.py:9-20 | Every even position of the flattening is a flag extending the prefix it was flattened under. |
| ApiTasks.FlattenEntriesFlags | api/app/tasks.py:14-15 | The same holds for the concatenated flattenings of a dict's first `n` values, under `prefix.`. |
| ApiTasks.FlattenEntriesStep | api/app/tasks.py:14-15 | One more dict entry appends its value's flattening, under the prefix followed by its key, after the earlier ones. |
| ApiTasks.FlattenLeaf | api/app/tasks.py:17-20 | A list becomes `[prefix, "\"" + str(value) + "\""]`, and a scalar becomes `[prefix, str(value)]`. |
| ApiTasks.FlattenEmptyDict | api/app/tasks.py:11-16 | An empty dict contributes nothing. |
| ApiTasks.FlattenDictSnoc | api/app/tasks.py:11-16 | A dict flattens to its entries' flattenings in order, each under `prefix.key` (top level: `--key`). |
| ApiTasks.FlattenEntries | api/app/tasks.py:11-16 | The flattening of a dict's first entries has even length. |
| ApiTasks.RenderUnder | api/app/tasks.py:13-15 | Flags under a nested key are the dot-joined paths. |
| ApiTasks.RenderEntry | api/app/tasks.py:13-15 | Rendering the leaves of one more dict entry appends exactly the flattening of its value under `prefix.key`. |
| ApiTasks.FlagUnder | api/app/tasks.py:13 | For a non-empty key, the flag of a path under `prefix.key` is the flag of that path with `key` in front. |
| ApiTasks.FlattenIsRender | api/app/tasks.py:9-20 | The flattening equals the independent rendering of the leaves: one `(flag, value)` pair per leaf, in order, each flag being the prefix and the dot-joined key path. |
| ApiTasks.JobArgsWithoutParameters | api/app/tasks.py:31-33 | With `parameters` None the arguments are exactly `["--job_id", job_id]`. |
| ApiTasks.JobIdEntryAt | api/app/tasks.py:31-33 | The `job_id` entry of the dict contributes the flag `--job_id` and the id at an even position of the whole flattening. |
| ApiTasks.JobArgsHoldJobId | api/app/tasks.py:31-33 | The arguments always hold the flag `--job_id`, at a flag position, followed by the job id. |
| ApiTasks.JobArgs | api/app/tasks.py:31-33 | The job arguments come in flag/value pairs. |
| WorkflowTrigger.FlagFor | infrastructure/workflow_trigger/main.py:59 | The flag starts with `--`. The key is kept if it already does, otherwise `--` is prepended. |
| WorkflowTrigger.TriggerArgsPairs | infrastructure/workflow_trigger/main.py:56-63 | Two entries per key, in order: the flag, then `str(value)`. |
| WorkflowTrigger.TriggerArgs | infrastructure/workflow_trigger/main.py:56-60 | Two arguments per parameter entry. |
| WorkflowTrigger.ParseWorkflowParameters | infrastructure/workflow_trigger/main.py:51-63 | Missing or falsy `parameters` gives `[]`. A dict gives its flag/value pairs, and a truthy non-dict is an error. |
| WorkflowTrigger.JobEnvKeyShape | infrastructure/workflow_trigger/main.py:48-49 | Character by character: the key is the workflow upper-cased with `-` replaced by `_`. |
| WorkflowTrigger.JobEnvKey | infrastructure/workflow_trigger/main.py:49 | The key is as long as the workflow plus nine, ends with `_JOB_NAME`, and holds no `-` before that suffix. |
| WorkflowTrigger.DetermineWorkflow | infrastructure/workflow_trigger/main.py:46-49 | The job name is the environment's value for that key, if any. A non-dict message or a non-string `workflow` is an error. |
| WorkflowTrigger.Region | infrastructure/workflow_trigger/main.py:31 | The region contains no `/`, and is the whole answer when it has none. |
| WorkflowTrigger.RegionOfAnswer | infrastructure/workflow_trigger/main.py:30-31 | `projects/<n>/regions/<region>` yields `<region>`. |
| WorkflowTrigger.FullJobName | infrastructure/workflow_trigger/main.py:90 | When project, region and job hold no `/`, the full job name splits on `/` into `projects`, project, `locations`, region, `jobs`, job. |
| WorkflowTrigger.TriggerWorkflow | infrastructure/workflow_trigger/main.py:66-110 | A run request is made only for a truthy dict message naming a configured, non-empty job, with a non-empty region and parameters that parse. Conversely every such message makes one. It is named `FullJobName(project, region, job)`, and its arguments are exactly the parsed parameters. A parameters error makes no request. |
| TextUtils.SanitizeString | tasks/core/tasks/utils.py:45-61 | The loop over the twelve characters computes `Sanitized`. |
| TextUtils.Sanitized | tasks/core/tasks/utils.py:59-61 | The sanitized text has no surrounding whitespace and is no longer than the input. |
| TextUtils.SanitizedProperties | tasks/core/tasks/utils.py:59-61 | The result contains none of ``[ ] / space \ ? < > : \| * @``, has no surrounding whitespace, and is no longer than the input. |
| TextUtils.SanitizedFixedPoints | tasks/core/tasks/utils.py:59-61 | Sanitizing leaves a string unchanged iff it has none of the twelve characters and no surrounding whitespace. |
| TextUtils.SanitizeIdempotent | tasks/core/tasks/utils.py:59-61 | Sanitizing twice is sanitizing once. |
| TextUtils.NormalizedProperties | tasks/core/tasks/utils.py:64-78 | `normalize_string` is `lower` of the sanitized text. It has no surrounding whitespace, no upper-case letters and none of the twelve characters. |
| TextUtils.Normalized | tasks/core/tasks/utils.py:64-78 | The normalized text is no longer than the input. |
| TextUtils.NormalizeIdempotent | tasks/core/tasks/utils.py:64-78 | Normalizing twice is normalizing once. |
| GitUrl.AddTokenToGitHttpUrl | workflows/tasks/git.py:28-31 | A URL without `https://` is returned unchanged. |
| GitUrl.AddTokenToHttpsUrl | workflows/tasks/git.py:28-31 | With `gitlab` anywhere, `https://` becomes `https://__token__:<token>@`; otherwise it becomes `https://<token>@`. |
| GitUrl.CloneUrl | workflows/tasks/git.py:67-76 | An `https://` URL without `GIT_TOKEN` fails, and with it gets the token. A `git@` URL fails, as does any other scheme. |
| GitUrl.CloneRepository | workflows/tasks/git.py:67-93 | Succeeds iff the URL dispatch does. It returns `working_dir` unchanged and configures the identity iff both user and email are non-empty. |
| PushFeature.ZeroPad4 | workflows/flows/push_feature/main.py:95-97 | `{n:04}` for `n` in [0, 1000] is four digits. |
| PushFeature.ZeroPad4RoundTrip | workflows/flows/push_feature/main.py:95-97 | The four digits read back as `n`. |
| PushFeature.GeneratedBranchShape | workflows/flows/push_feature/main.py:92-97 | Between `feature/` and the dash of a generated name is the sanitized author, or `pluscoder` without one. |
| PushFeature.GeneratedBranch | workflows/flows/push_feature/main.py:92-97 | A generated name starts with `feature/` and ends with `-` and four digits that read back as the random number. |
| PushFeature.FeatureBranchAsWritten | workflows/flows/push_feature/main.py:90-97 | As written: a requested branch that passes the checks on the unsanitized name is used after sanitizing. Any other request gives the generated name. |
| PushFeature.ProtectedBranchSlipsThrough | workflows/flows/push_feature/main.py:90-91 | As written, `feature_branch = "main\n"` yields the protected branch `main`. |
| PushFeature.GeneratedBranchSafe | workflows/flows/push_feature/main.py:92-97 | A generated branch is never protected and starts with `feature/`. |
| PushFeature.FeatureBranch | workflows/flows/push_feature/main.py:90-97 | Corrected selection. The branch is never protected, never empty, and never the source branch unless generated. A usable sanitized request is used, and any other result is generated. |
| PushFeature.FeatureBranchAgrees | workflows/flows/push_feature/main.py:90-97 | For requests that sanitizing leaves unchanged, the corrected and the as-written selection agree. |
| PushFeature.RunWithRetries | workflows/flows/push_feature/main.py:100-115 | PlusCoder runs at least once and at most `MAX_RETRIES` (3) times, stopping at the first success. Every earlier attempt failed, and the loop succeeds iff one of the three attempts would. |
| PushFeature.Runs | workflows/flows/push_feature/main.py:102-115 | The attempts made, in order. |
| PushFeature.Workflow | workflows/flows/push_feature/main.py:54-125 | As written, with the branch chosen by `FeatureBranchAsWritten`. A clone failure stops before any step. Otherwise the steps are those `WorkflowSteps` lists for that branch and the attempts made. The run succeeds iff the push does, and a failed push is an error. |
| PushFeature.PushBranch | workflows/flows/push_feature/main.py:85-125 | For a chosen branch: a clone failure stops before any step. Otherwise the steps are clone, branch change (only with a source branch), branch creation, the attempts, commit, push, and removal of the temporary directory after a successful push. |
| PushFeature.WorkflowCorrected | workflows/flows/push_feature/main.py:54-125 | With the corrected selection `FeatureBranch`, the same steps, and no push ever targets a protected or empty branch. |
| PushFeature.WorkflowPushesBranch | workflows/flows/push_feature/main.py:99-120 | The only branch pushed is the one created. |
| PushFeature.WorkflowPushesMain | workflows/flows/push_feature/main.py:90-120 | As written, a request for `main\n` without a source branch pushes to `main`. |
| PushFeature.WorkflowAlwaysPushes | workflows/flows/push_feature/main.py:116-124 | Over the workflow steps: commit and push happen whatever the attempts gave. The temporary directory is deleted iff the push succeeded, and then last; otherwise the push is the last step. |
| JobModels.ParseStatus | tasks/core/tasks/models.py:58-63 | A parsed status prints back as the string it came from. |
| JobModels.StatusValues | tasks/core/tasks/models.py:58-63 | Exactly four statuses: created, running, completed, failed. |
| JobModels.NewProgressStep | tasks/core/tasks/models.py:66-72 | A step's status defaults to `created`. |
| JobModels.CreateJob | tasks/core/tasks/models.py:87-132 | A new job has status `created` and its task id, parameters and creation time. User, start, completion, error, result and progress are all unset. |
| JobModels.NewStartJob | tasks/core/tasks/models.py:135-150 | `StartJob()` is `running`, with an empty step list. |
| JobModels.NewFailJob | tasks/core/tasks/models.py:153-173 | `FailJob` is `failed`, with the error and no result. |
| JobModels.NewFinishJob | tasks/core/tasks/models.py:176-196 | `FinishJob` is `completed`, with the result and no error. A `None` result fails validation. |
| JobModels.NewStartJobStep | tasks/core/tasks/models.py:199-219 | `StartJobStep` is `running`, with its name and description. |
| JobModels.NewFailJobStep | tasks/core/tasks/models.py:222-232 | `FailJobStep` is `failed`. |
| JobModels.NewFinishJobStep | tasks/core/tasks/models.py:235-245 | `FinishJobStep` is `completed`. |
| JobStore.StartJobChangesOnly | tasks/core/tasks/db.py:125-131 | `StartJob` changes only `status` and `started_at`. |
| JobStore.ApplyJobUpdate | tasks/core/tasks/db.py:125-140 | A job update sets the status and keeps the task id, parameters, user, creation time and steps. |
| JobStore.EndJobChangesExactly | tasks/core/tasks/db.py:132-140 | `FailJob`/`FinishJob` change exactly `status`, `completed_at`, the result and the error. A failed job gets no result, and a finished one no error. |
| JobStore.ApplyStepUpdate | tasks/core/tasks/db.py:152-182 | Starting a step always succeeds. Ending one fails exactly when the job has no progress or no steps. |
| JobStore.StartStepAppends | tasks/core/tasks/db.py:152-169 | A started step is appended with the update's fields and no completion time; missing progress counts as empty. Earlier steps and other fields are unchanged. |
| JobStore.EndStepOverwritesLast | tasks/core/tasks/db.py:170-182 | Ending a step overwrites only the last step's `status` and `completed_at`. |
| JobStore.JobStore.CreateOrCheckJob | tasks/core/tasks/db.py:96-116 | An existing `created` job gives true with no write. Any other existing status is an error, a missing status counting as `failed`. An absent job is stored as `CreateJob`, giving false. |
| JobStore.JobStore.UpdateJobStatus | tasks/core/tasks/db.py:119-142 | An unknown job is an error with no write. Otherwise exactly that job changes, by `ApplyJobUpdate`. |
| JobStore.JobStore.UpdateJobStepStatus | tasks/core/tasks/db.py:145-184 | An unknown job, or ending a step of a job without steps, is an error with no write. Otherwise exactly that job changes, by `ApplyStepUpdate`. |
| JobStore.ContextSlot.GetContext | tasks/core/tasks/db.py:50-60 | A given context is stored and returned. Without one, the stored context is returned, and before any setup the call fails. |
| JobStore.ContextSlot.SetupContext | tasks/core/tasks/db.py:39-47 | Setup stores and returns the context built from its arguments. |
| TaskLifecycle.StepRecord | tasks/core/tasks/tasks.py:97-107 | A step is recorded with its name, description, start time and end time. It is completed iff its body returned and failed iff it raised. |
| TaskLifecycle.StepRecords | tasks/core/tasks/tasks.py:84-108 | One record per step run, in order. |
| TaskLifecycle.FailingStep | tasks/core/tasks/tasks.py:99-104 | The first step that raises: every earlier step returned. |
| TaskLifecycle.AppendStepsSnoc | tasks/core/tasks/tasks.py:97-107 | Recording one more step appends it to the job's steps. |
| TaskLifecycle.RunStep | tasks/core/tasks/tasks.py:84-108 | A step without a context fails with nothing written. Otherwise exactly its job gains one step record, completed or failed by the outcome, and a raising step's error is re-raised. |
| TaskLifecycle.RunSteps | tasks/core/tasks/tasks.py:97-107 | The steps run in order up to the first that raises. Each is recorded, and the loop reports whether one raised. |
| TaskLifecycle.FinishTask | tasks/core/tasks/tasks.py:62-76 | A raised exception writes `FailJob` and returns `None`. A returned result writes `FinishJob` and returns it, and returning `None` fails validation. |
| TaskLifecycle.RunTask | tasks/core/tasks/tasks.py:36-81 | The task id is `normalize_string(name)`, and the context is set. A job not in `created` is an error with nothing written. Otherwise the job is created or checked, started, run, and ended as `FinalJob` says. |
| TaskLifecycle.RunJob | tasks/core/tasks/tasks.py:44-50 | With the task id already normalized: the context is set, a job not in `created` is an error with nothing written, and otherwise the created or checked job ends as `FinalJob` says. |
| TaskLifecycle.RunAccepted | tasks/core/tasks/tasks.py:51-76 | Once the job is stored, it is started, its steps run, and its ending is written; the job ends as `FinalJob` says and the wrapper returns `TaskOutcome`. |
| TaskLifecycle.AppendStepsKeeps | tasks/core/tasks/tasks.py:97-107 | Recording steps keeps the earlier steps and every other field. |
| TaskLifecycle.FinalStatus | tasks/core/tasks/tasks.py:51-75 | A task ends `completed` iff no step raised and it returned a result. It ends `failed` iff no step raised and it raised, and stays `running` otherwise (a step raised, or it returned `None`). |
| TaskLifecycle.FinalSteps | tasks/core/tasks/tasks.py:84-108 | The job's steps are its earlier steps plus one record per step run, in call order, each with the clock's start and end times for its position. All are completed except the step that raised, which is failed. |
| TaskLifecycle.FinalFields | tasks/core/tasks/tasks.py:51-76 | Only the lifecycle fields change, and the start time is the clock's. A completed job holds the result, no error and the clock's end time. A failed one holds the exception's code and message without additional information, no result and the end time. A job left running has no new completion time. |
| TaskLifecycle.FinalJob | tasks/core/tasks/tasks.py:51-76 | The final job keeps its task id, parameters and creation time, has the clock's start time, and is no longer `created`. |
| TaskLifecycle.TaskOutcome | tasks/core/tasks/tasks.py:51-76 | The wrapper fails iff a step raised or the task returned `None`, with the unbound-update or validation error. Otherwise it returns the task's result, or `None` when the task raised. |
| Webhooks.KeptParameters | infrastructure/workflow_http_pub/push_feature_request/main.py:35-50 | The filtered dict has at most one entry per named key, and only named keys. When the named keys are distinct, no key occurs twice in it. |
| Webhooks.ParameterKeysDistinct | infrastructure/workflow_http_pub/push_feature_request/main.py:35-50 | Neither forwarded key list repeats a key, so neither filtered dict holds a key twice. |
| Webhooks.KeptParametersSpec | infrastructure/workflow_http_pub/push_feature_request/main.py:35-50 | The filtered dict holds exactly the named keys whose value is not `None`, each with its request value unchanged. |
| Webhooks.Publish | infrastructure/workflow_http_pub/push_feature_request/main.py:17-66 | Non-POST gives 405, and a falsy `git_url` or `feature_request` gives 400; in both cases nothing is published. Otherwise the message goes to `PUBSUB_TOPIC` (default `workflow-trigger-topic`), naming `TARGET_WORKFLOW` (default `push_feature`) and the filtered parameters. |
| Webhooks.AsJsonStrings | infrastructure/push_feature_request/main.py:42 | Form values are serialized as JSON strings, in order. |
| Webhooks.PushFeatureRequest | infrastructure/push_feature_request/main.py:9-44 | A missing or empty `git_url` or `feature_request` gives 400 with nothing published. Otherwise 200, and the message goes to `PUBSUB_TOPIC`, naming `PUSH_FEATURE_WORKFLOW` (default `push_feature`) and exactly the seven form keys present. |
| Webhooks.FormForwarded | infrastructure/push_feature_request/main.py:20-32 | The form's dict keeps `git_url` and `feature_request` as the form has them, and its JSON rendering holds exactly the form's values under the seven keys. |
| Webhooks.FormDropsUnlisted | infrastructure/push_feature_request/main.py:20-29 | No key outside the seven form keys is ever forwarded, whatever the form holds. |
| Webhooks.FormDropsBranchFields | infrastructure/push_feature_request/main.py:20-29 | `source_branch`, `feature_branch`, `author` and `extra_flags` are never forwarded by the form adapter. |

## Left out

- pydantic `create_model`, `Enum` construction and `model_validate` are a foreign library. The model builds a `Ty` descriptor instead of a class, and validation (`validate_with_model_schema`) is not modelled. So the parameters a task receives are taken to be plain decoded JSON. An enum-typed field validates to an `Enum` member, whose `str()` is `Name.value_i` rather than the JSON value. `Json` cannot hold such a member, so the model does not capture what `JobArgs`' `show` prints for it.
- Firestore, Pub/Sub, Cloud Run `run_job`, the metadata server, `google.auth` and `GCP_PROJECT` are foreign services.
  - The jobs collection is an in-memory map.
  - A published message is recorded in the response.
  - The Pub/Sub message id, the project id and the metadata answer are parameters.
  - Base64 and JSON decoding of the trigger event is not modelled: the message arrives decoded.
- Git operations (clone, branch change and creation, commit, push), the PlusCoder subprocess and temporary directories are process and filesystem I/O.
  - The workflow records them as a sequence of steps.
  - Whether an attempt or the push succeeds is a parameter.
- Logging, `get_logger` and `workflows/core.py` timing are not modelled, because they do not affect any result.
- The CLI entry points, the HTTP routing of `server/app/main.py`, settings, emulator seeding and the example tasks are not modelled: they are startup glue.
- Timestamps and `randint(0, 1000)` are parameters. A record constructor takes its own `get_timestamp` value, a task run reads each time from a `TaskLifecycle.Clock`, and the random number is `n`.
- Python `str()` of non-string values is a `show` function parameter.
- Upper and lower case conversion is ASCII-only. Unicode case mapping and the UTF-8 encode/decode with `ignore` (the identity on well-formed text) are not modelled.
- `TextUtils.NormalizedProperties`: states the absence of ASCII upper-case letters only, because case mapping is ASCII-only.
- `JobStore.JobStore.UpdateJobStatus`: the `Invalid job update` and `Invalid job step update` branches (`tasks/core/tasks/db.py:142,184`) cannot be reached with the typed update datatypes, so they have no counterpart.
- `JobModels.NewStartJob`: the update's step list is never written by `update_job_status`, so it has no effect on the job document.
- `TaskLifecycle.RunTask`: the task function is abstracted as the steps it calls, each returning or raising, followed by its own return or raise. The model does not capture:
  - code between steps;
  - steps called from other steps;
  - exceptions caught inside the task function.
- `TaskLifecycle.RunTask`: the error information a `StepExpection` carries is not stored, because the source never writes it.
- `Webhooks.Publish`: assumes the JSON body is an object. A non-object body makes `.get` raise, which the model does not represent.
- `ApiTasks.FlattenIsRender`: proved for dicts whose keys are non-empty, because an empty key makes the dotted flag ambiguous.
- `WorkflowTrigger.TriggerWorkflow`: exceptions are caught and printed, so the model says when a run request is made, what it is named and which arguments it carries. The printed messages are not modelled.
- `SubmodelOrder.SortSubmodels`: keeps the source's failure on an empty list but raises the circular-dependency error the source only constructs. The non-terminating behaviour as written is stated by `SubmodelOrder.SelfReferenceNeverEnds`.
- `ModelBuilder.CreateModelFromSchema`: requires distinct `$defs` keys, as every JSON object has.
- `ModelBuilder.CreateModelFromSchema`: a cyclic `$defs` gives the circular-dependency error where the source loops forever. The endless loop is stated by `SubmodelOrder.SelfReferenceNeverEnds`.
- `TypeResolution.Or`: compares types as values, where Python's `Union` compares classes by identity. Two record-like definitions with the same title, description and fields become one union member in the model but stay two distinct classes in Python.
- `api/app/db.py`, `api/app/models.py` and `tasks/core/tasks/types.py` are declarations or thin service wrappers with no behaviour beyond the defaults modelled in `JobModels`.

## Findings

| source | as written | input that shows it | evidently intended | confidence | as-written member | corrected member |
|---|---|---|---|---|---|---|
| server/app/schema_validation.py:118 | `submodels_names.pop()` runs before any check, so a schema with no record-like `$defs` raises `IndexError`. | A schema whose `$defs` is empty or holds only enums. | No submodels: an empty order, after which the root is built. | not executed | ModelBuilder.CreateModelFromSchema | ModelBuilder.CreateModelFromSchemaCorrected |
| server/app/schema_validation.py:120-127 | The `ValueError` is built but not raised, and `while len(...) >= 0` is always true, so a cycle loops forever. | A definition `A` with a property whose `$ref` is `#/$defs/A`. | Raise "Circular dependency". | not executed | SubmodelOrder.DescendAsWritten | SubmodelOrder.SortSubmodels |
| workflows/flows/push_feature/main.py:90-91 | The protected-name and source-branch checks look at the requested name before `sanitize_string`, which strips whitespace. | `feature_branch = "main\n"` yields branch `main`. | Check the sanitized name. | not executed | PushFeature.WorkflowPushesMain | PushFeature.WorkflowCorrected |
