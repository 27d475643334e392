/**
 * The push-feature workflow: clone the repository, pick the feature branch,
 * run PlusCoder a bounded number of times, then commit and push. Git and
 * PlusCoder themselves are outside the model: their outcomes are inputs.
 */
module PushFeature {
  import opened Wrappers
  import opened Strings
  import opened TextUtils
  import opened GitUrl

  /** How many times PlusCoder is run at most. */
  const MaxRetries: nat := 3

  /** Branches the workflow must never work in directly. */
  const ProtectedBranchNames: seq<string> := ["main", "master", "develop"]

  function DigitValue(c: char): int {
    c as int - '0' as int
  }

  /** The decimal digit for `d`, which reads back as `d`. */
  function DigitChar(d: nat): (c: char)
    requires d < 10
    ensures '0' <= c <= '9' && DigitValue(c) == d
  {
    (d + '0' as int) as char
  }

  /** `f"{n:04}"` for the values `randint(0, 1000)` returns: four decimal digits, zero-padded. */
  function ZeroPad4(n: nat): (s: string)
    requires n <= 1000
    ensures |s| == 4
    ensures forall i :: 0 <= i < 4 ==> '0' <= s[i] <= '9'
  {
    var tens := n / 10;
    var hundreds := tens / 10;
    assert tens <= 100 && hundreds <= 10;
    [DigitChar(hundreds / 10), DigitChar(hundreds % 10), DigitChar(tens % 10), DigitChar(n % 10)]
  }

  /** Reading four decimal digits back as a number. */
  function ParseDigits4(s: string): int
    requires |s| == 4
  {
    ((DigitValue(s[0]) * 10 + DigitValue(s[1])) * 10 + DigitValue(s[2])) * 10 + DigitValue(s[3])
  }

  /** The padded text reads back as the number it was made from. */
  lemma ZeroPad4RoundTrip(n: nat)
    requires n <= 1000
    ensures ParseDigits4(ZeroPad4(n)) == n
  {
    var tens := n / 10;
    var hundreds := tens / 10;
    assert n == tens * 10 + n % 10;
    assert tens == hundreds * 10 + tens % 10;
    assert hundreds == (hundreds / 10) * 10 + hundreds % 10;
    assert hundreds / 10 < 10;
  }

  /** `feature_branch` is given, non-empty, and not the source branch. */
  predicate Requested(featureBranch: Option<string>, sourceBranch: Option<string>) {
    featureBranch.Some? && featureBranch.value != "" && sourceBranch != featureBranch
  }

  /**
   * The name generated when no usable feature branch is given (lines
   * 92-97): `feature/`, a middle part, `-` and four digits that read back
   * as `n`.
   */
  function GeneratedBranch(author: Option<string>, n: nat): (b: string)
    requires n <= 1000
    ensures |b| >= 13 && b[..8] == "feature/" && b[|b| - 5] == '-' && ParseDigits4(b[|b| - 4..]) == n
  {
    if author.Some? && author.value != "" then
      BranchShape(Sanitized(author.value), n);
      "feature/" + Sanitized(author.value) + "-" + ZeroPad4(n)
    else
      BranchShape("pluscoder", n);
      assert "feature/pluscoder-" + ZeroPad4(n) == "feature/" + "pluscoder" + "-" + ZeroPad4(n);
      "feature/pluscoder-" + ZeroPad4(n)
  }

  /** `feature/<middle>-<digits>` has `middle` between the prefix and the dash, and the digits read back as `n`. */
  lemma BranchShape(middle: string, n: nat)
    requires n <= 1000
    ensures var b := "feature/" + middle + "-" + ZeroPad4(n);
      |b| == 13 + |middle| && b[..8] == "feature/" && b[8..|b| - 5] == middle && b[|b| - 5] == '-' &&
      ParseDigits4(b[|b| - 4..]) == n
  {
    var b := "feature/" + middle + "-" + ZeroPad4(n);
    assert b[|b| - 4..] == ZeroPad4(n);
    assert b[8..|b| - 5] == middle;
    ZeroPad4RoundTrip(n);
  }

  /** Between `feature/` and the dash of a generated name is the sanitized author, or `pluscoder` without one. */
  lemma GeneratedBranchShape(author: Option<string>, n: nat)
    requires n <= 1000
    ensures author.Some? && author.value != "" ==>
      GeneratedBranch(author, n)[8..|GeneratedBranch(author, n)| - 5] == Sanitized(author.value)
    ensures !(author.Some? && author.value != "") ==>
      GeneratedBranch(author, n)[8..|GeneratedBranch(author, n)| - 5] == "pluscoder"
  {
    if author.Some? && author.value != "" {
      BranchShape(Sanitized(author.value), n);
    } else {
      BranchShape("pluscoder", n);
      assert "feature/pluscoder-" + ZeroPad4(n) == "feature/" + "pluscoder" + "-" + ZeroPad4(n);
    }
  }

  /**
   * Lines 90-97 as written: the protected-name and source-branch checks look
   * at the requested name BEFORE it is sanitized.
   */
  function FeatureBranchAsWritten(featureBranch: Option<string>, sourceBranch: Option<string>,
                                  author: Option<string>, n: nat): (b: string)
    requires n <= 1000
    ensures Requested(featureBranch, sourceBranch) && featureBranch.value !in ProtectedBranchNames ==>
      b == Sanitized(featureBranch.value)
    ensures !(Requested(featureBranch, sourceBranch) && featureBranch.value !in ProtectedBranchNames) ==>
      b == GeneratedBranch(author, n)
  {
    if Requested(featureBranch, sourceBranch) && featureBranch.value !in ProtectedBranchNames then
      Sanitized(featureBranch.value)
    else GeneratedBranch(author, n)
  }

  /** `"main\n"` passes the checks, and sanitizing it yields the protected `main`. */
  lemma ProtectedBranchSlipsThrough()
    ensures FeatureBranchAsWritten(Some("main\n"), None, None, 0) == "main"
    ensures "main" in ProtectedBranchNames
  {
    assert "main\n" !in ProtectedBranchNames;
    SanitizedMainNewline();
  }

  lemma SanitizedMainNewline()
    ensures Sanitized("main\n") == "main"
  {
    MaskMainNewline();
    StripMainNewline();
  }

  lemma MaskMainNewline()
    ensures MaskForbidden("main\n") == "main\n"
  {
    var m := MaskForbidden("main\n");
    forall i | 0 <= i < 5 ensures m[i] == "main\n"[i] {
      assert "main\n"[i] !in Forbidden;
    }
  }

  lemma StripMainNewline()
    ensures Strip("main\n") == "main"
  {
    assert StripLeft("main\n") == "main\n";
    assert "main\n"[..4] == "main";
    assert StripRight("main") == "main";
    assert StripRight("main\n") == "main";
  }

  /** A name the workflow may work in: non-empty, unprotected and not the source branch. */
  predicate Usable(name: string, sourceBranch: Option<string>) {
    name != "" && name !in ProtectedBranchNames && sourceBranch != Some(name)
  }

  /** A generated name is never protected and never empty. */
  lemma GeneratedBranchSafe(author: Option<string>, n: nat)
    requires n <= 1000
    ensures GeneratedBranch(author, n) !in ProtectedBranchNames
    ensures StartsWith(GeneratedBranch(author, n), "feature/")
  {
    GeneratedBranchShape(author, n);
  }

  /**
   * The branch selection with the checks applied to the sanitized name: a
   * requested name is used only when it is still non-empty, unprotected and
   * different from the source branch after sanitizing.
   */
  function FeatureBranch(featureBranch: Option<string>, sourceBranch: Option<string>,
                         author: Option<string>, n: nat): (b: string)
    requires n <= 1000
    ensures b !in ProtectedBranchNames
    ensures b != ""
    ensures sourceBranch.Some? && b == sourceBranch.value ==> StartsWith(b, "feature/")
    ensures featureBranch.Some? && Usable(Sanitized(featureBranch.value), sourceBranch) ==>
      b == Sanitized(featureBranch.value)
    ensures !StartsWith(b, "feature/") ==> featureBranch.Some? && b == Sanitized(featureBranch.value)
  {
    if featureBranch.Some? && Usable(Sanitized(featureBranch.value), sourceBranch) then
      Sanitized(featureBranch.value)
    else
      GeneratedBranchSafe(author, n);
      GeneratedBranch(author, n)
  }

  /** The corrected selection agrees with the written one whenever sanitizing does not change the name. */
  lemma FeatureBranchAgrees(featureBranch: Option<string>, sourceBranch: Option<string>,
                            author: Option<string>, n: nat)
    requires n <= 1000
    requires featureBranch.Some? ==> Sanitized(featureBranch.value) == featureBranch.value
    ensures FeatureBranch(featureBranch, sourceBranch, author, n) ==
      FeatureBranchAsWritten(featureBranch, sourceBranch, author, n)
  {
  }

  /** How many runs the retry loop makes when run `i` succeeds exactly when `succeeds(i)`. */
  function AttemptsMade(succeeds: nat -> bool): nat {
    if succeeds(0) then 1 else if succeeds(1) then 2 else 3
  }

  /**
   * Lines 100-115: PlusCoder is run until one run succeeds, at most
   * `MaxRetries` times; `succeeds(i)` is the truthiness of the `i`-th run's
   * output.
   */
  method RunWithRetries(succeeds: nat -> bool) returns (attempts: nat, ok: bool)
    ensures attempts == AttemptsMade(succeeds)
    ensures 1 <= attempts <= MaxRetries
    ensures forall j :: 0 <= j < attempts - 1 ==> !succeeds(j)
    ensures ok == succeeds(attempts - 1)
    ensures ok <==> exists j :: 0 <= j < MaxRetries && succeeds(j)
  {
    var retries := MaxRetries;
    attempts := 0;
    ok := false;
    while retries > 0
      invariant 0 <= retries <= MaxRetries && attempts == MaxRetries - retries
      invariant forall j :: 0 <= j < attempts ==> !succeeds(j)
      invariant !ok
    {
      var result := succeeds(attempts);
      attempts := attempts + 1;
      if result {
        ok := true;
        break;
      }
      retries := retries - 1;
    }
  }

  /** The effects the workflow has, in order. */
  datatype Step =
    | CloneInto(url: string, dir: string)
    | ChangeBranch(branch: string)
    | CreateBranch(branch: string)
    | RunPlusCoder(attempt: nat)
    | Commit
    | Push(branch: string)
    | DeleteTempDir(dir: string)

  datatype FlowError =
    | CloneFailed(reason: CloneError)    // `ValueError` from `clone_repository`
    | PushFailed                         // line 123

  /** One `RunPlusCoder` step per attempt. */
  function Runs(count: nat): (s: seq<Step>)
    ensures |s| == count
    ensures forall i :: 0 <= i < count ==> s[i] == RunPlusCoder(i)
  {
    seq(count, i requires 0 <= i => RunPlusCoder(i))
  }

  /**
   * The effects of a workflow whose clone succeeded: the clone, the change
   * to the source branch when one is given, the new branch, one run per
   * attempt, commit and push, and the removal of the temporary directory
   * once the push succeeded.
   */
  function WorkflowSteps(url: string, dir: string, sourceBranch: Option<string>, branch: string,
                         attempts: nat, pushed: bool): seq<Step> {
    [CloneInto(url, dir)]
      + (if sourceBranch.Some? && sourceBranch.value != "" then [ChangeBranch(sourceBranch.value)] else [])
      + [CreateBranch(branch)] + Runs(attempts) + [Commit, Push(branch)]
      + (if pushed then [DeleteTempDir(dir)] else [])
  }

  /**
   * `workflow` once the branch is chosen: the effects it has and how it
   * ends, given the temporary directory, whether each PlusCoder run
   * succeeds and whether the push succeeds.
   */
  method PushBranch(gitUrl: string, sourceBranch: Option<string>, branch: string,
                    gitUser: Option<string>, gitEmail: Option<string>, env: map<string, string>, tempDir: string,
                    succeeds: nat -> bool, pushed: bool)
    returns (steps: seq<Step>, outcome: Result<(), FlowError>)
    ensures CloneUrl(gitUrl, env).Err? ==> steps == [] && outcome == Err(CloneFailed(CloneUrl(gitUrl, env).error))
    ensures CloneUrl(gitUrl, env).Ok? ==>
      steps == WorkflowSteps(CloneUrl(gitUrl, env).value, tempDir, sourceBranch, branch, AttemptsMade(succeeds), pushed)
    ensures outcome.Ok? <==> CloneUrl(gitUrl, env).Ok? && pushed
    ensures CloneUrl(gitUrl, env).Ok? && !pushed ==> outcome == Err(PushFailed)
  {
    var clone := CloneRepository(gitUrl, tempDir, gitUser, gitEmail, env);
    if clone.Err? {
      return [], Err(CloneFailed(clone.error));
    }
    var repoDir := clone.value.workingDir;
    var change: seq<Step> := [];
    if sourceBranch.Some? && sourceBranch.value != "" {
      change := [ChangeBranch(sourceBranch.value)];
    }
    var attempts, _ := RunWithRetries(succeeds);
    steps := [CloneInto(clone.value.sourceUrl, repoDir)] + change + [CreateBranch(branch)]
      + Runs(attempts) + [Commit, Push(branch)];
    if !pushed {
      return steps, Err(PushFailed);
    }
    steps := steps + [DeleteTempDir(tempDir)];
    return steps, Ok(());
  }

  /**
   * `workflow` as written: the branch is the one `FeatureBranchAsWritten`
   * picks, so a requested `"main\n"` is created and pushed as `main`.
   * `n` is the value `randint(0, 1000)` returned.
   */
  method Workflow(gitUrl: string, sourceBranch: Option<string>, featureBranch: Option<string>,
                  author: Option<string>, gitUser: Option<string>, gitEmail: Option<string>,
                  env: map<string, string>, tempDir: string, n: nat,
                  succeeds: nat -> bool, pushed: bool)
    returns (steps: seq<Step>, outcome: Result<(), FlowError>)
    requires n <= 1000
    ensures CloneUrl(gitUrl, env).Err? ==> steps == [] && outcome == Err(CloneFailed(CloneUrl(gitUrl, env).error))
    ensures CloneUrl(gitUrl, env).Ok? ==>
      steps == WorkflowSteps(CloneUrl(gitUrl, env).value, tempDir, sourceBranch,
        FeatureBranchAsWritten(featureBranch, sourceBranch, author, n), AttemptsMade(succeeds), pushed)
    ensures outcome.Ok? <==> CloneUrl(gitUrl, env).Ok? && pushed
    ensures CloneUrl(gitUrl, env).Ok? && !pushed ==> outcome == Err(PushFailed)
  {
    var branch := FeatureBranchAsWritten(featureBranch, sourceBranch, author, n);
    steps, outcome := PushBranch(gitUrl, sourceBranch, branch, gitUser, gitEmail, env, tempDir, succeeds, pushed);
  }

  /**
   * `workflow` with the branch checks applied to the sanitized name: the
   * branch created and pushed is never a protected one.
   */
  method WorkflowCorrected(gitUrl: string, sourceBranch: Option<string>, featureBranch: Option<string>,
                           author: Option<string>, gitUser: Option<string>, gitEmail: Option<string>,
                           env: map<string, string>, tempDir: string, n: nat,
                           succeeds: nat -> bool, pushed: bool)
    returns (steps: seq<Step>, outcome: Result<(), FlowError>)
    requires n <= 1000
    ensures CloneUrl(gitUrl, env).Err? ==> steps == [] && outcome == Err(CloneFailed(CloneUrl(gitUrl, env).error))
    ensures CloneUrl(gitUrl, env).Ok? ==>
      steps == WorkflowSteps(CloneUrl(gitUrl, env).value, tempDir, sourceBranch,
        FeatureBranch(featureBranch, sourceBranch, author, n), AttemptsMade(succeeds), pushed)
    ensures forall b :: Push(b) in steps ==> b !in ProtectedBranchNames && b != ""
    ensures outcome.Ok? <==> CloneUrl(gitUrl, env).Ok? && pushed
    ensures CloneUrl(gitUrl, env).Ok? && !pushed ==> outcome == Err(PushFailed)
  {
    var branch := FeatureBranch(featureBranch, sourceBranch, author, n);
    steps, outcome := PushBranch(gitUrl, sourceBranch, branch, gitUser, gitEmail, env, tempDir, succeeds, pushed);
    if CloneUrl(gitUrl, env).Ok? {
      WorkflowPushesBranch(CloneUrl(gitUrl, env).value, tempDir, sourceBranch, branch, AttemptsMade(succeeds), pushed);
    }
  }

  /** The only branch a workflow pushes is the one it created. */
  lemma WorkflowPushesBranch(url: string, dir: string, sourceBranch: Option<string>, branch: string,
                             attempts: nat, pushed: bool)
    ensures forall b :: Push(b) in WorkflowSteps(url, dir, sourceBranch, branch, attempts, pushed) ==> b == branch
  {
    var steps := WorkflowSteps(url, dir, sourceBranch, branch, attempts, pushed);
    forall b | Push(b) in steps ensures b == branch {
      var k :| 0 <= k < |steps| && steps[k] == Push(b);
      var change := if sourceBranch.Some? && sourceBranch.value != "" then [ChangeBranch(sourceBranch.value)] else [];
      assert steps == [CloneInto(url, dir)] + change + [CreateBranch(branch)] + Runs(attempts) + [Commit, Push(branch)]
        + (if pushed then [DeleteTempDir(dir)] else []);
    }
  }

  /**
   * Commit and push happen whether or not any PlusCoder run succeeded, and
   * the temporary directory is deleted exactly when the workflow succeeds.
   */
  lemma WorkflowAlwaysPushes(url: string, dir: string, sourceBranch: Option<string>, branch: string,
                             attempts: nat, pushed: bool)
    ensures var steps := WorkflowSteps(url, dir, sourceBranch, branch, attempts, pushed);
      Commit in steps && Push(branch) in steps &&
      (DeleteTempDir(dir) in steps <==> pushed) &&
      (pushed ==> steps[|steps| - 1] == DeleteTempDir(dir)) &&
      (!pushed ==> steps[|steps| - 1] == Push(branch))
  {
    var steps := WorkflowSteps(url, dir, sourceBranch, branch, attempts, pushed);
    var change := if sourceBranch.Some? && sourceBranch.value != "" then [ChangeBranch(sourceBranch.value)] else [];
    assert steps == [CloneInto(url, dir)] + change + [CreateBranch(branch)] + Runs(attempts) + [Commit, Push(branch)]
      + (if pushed then [DeleteTempDir(dir)] else []);
    var k := 2 + |change| + attempts;
    assert steps[k] == Commit;
    assert steps[k + 1] == Push(branch);
  }

  /** With the clone succeeding, a requested `"main\n"` makes the workflow as written create and push `main`. */
  lemma WorkflowPushesMain(url: string, dir: string, author: Option<string>, n: nat, attempts: nat, pushed: bool)
    requires n <= 1000
    ensures Push("main") in WorkflowSteps(url, dir, None, FeatureBranchAsWritten(Some("main\n"), None, author, n), attempts, pushed)
  {
    ProtectedBranchSlipsThrough();
    assert FeatureBranchAsWritten(Some("main\n"), None, author, n) == FeatureBranchAsWritten(Some("main\n"), None, None, 0);
    WorkflowAlwaysPushes(url, dir, None, "main", attempts, pushed);
  }
}
