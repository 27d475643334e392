/**
 * `add_token_to_git_http_url` and the URL-scheme dispatch of
 * `clone_repository`: how the clone URL carries the access token, and
 * which URLs are refused before anything is cloned.
 */
module GitUrl {
  import opened Wrappers
  import opened Strings

  /** The credentials put after `https://`: GitLab wants the `__token__` user name. */
  function Credentials(gitUrl: string, token: string): string {
    if Contains(gitUrl, "gitlab") then "__token__:" + token + "@" else token + "@"
  }

  /**
   * `add_token_to_git_http_url`: every `https://` is followed by the
   * credentials, so a URL without `https://` is returned unchanged.
   */
  function AddTokenToGitHttpUrl(gitUrl: string, token: string): (r: string)
    ensures !Contains(gitUrl, "https://") ==> r == gitUrl
  {
    var r := ReplaceAll(gitUrl, "https://", "https://" + Credentials(gitUrl, token));
    assert !Contains(gitUrl, "https://") ==> r == gitUrl by {
      if !Contains(gitUrl, "https://") {
        ReplaceAllWithoutMatch(gitUrl, "https://", "https://" + Credentials(gitUrl, token));
      }
    }
    r
  }

  /**
   * For `https://<rest>` with no further `https://`, the result is
   * `https://__token__:<token>@<rest>` when the URL mentions `gitlab`, and
   * `https://<token>@<rest>` otherwise.
   */
  lemma AddTokenToHttpsUrl(rest: string, token: string)
    requires !Contains(rest, "https://")
    ensures Contains("https://" + rest, "gitlab") ==>
      AddTokenToGitHttpUrl("https://" + rest, token) == "https://" + "__token__:" + token + "@" + rest
    ensures !Contains("https://" + rest, "gitlab") ==>
      AddTokenToGitHttpUrl("https://" + rest, token) == "https://" + token + "@" + rest
  {
    var url := "https://" + rest;
    var cred := Credentials(url, token);
    ReplaceAllAtStart("https://", rest, "https://" + cred);
    ReplaceAllWithoutMatch(rest, "https://", "https://" + cred);
    assert AddTokenToGitHttpUrl(url, token) == "https://" + cred + rest;
    if Contains(url, "gitlab") {
      Regroup("https://", "__token__:", token, rest);
    } else {
      assert "https://" + cred + rest == "https://" + token + "@" + rest;
    }
  }

  /** The gitlab credentials regrouped after the scheme. */
  lemma Regroup(scheme: string, user: string, token: string, rest: string)
    ensures scheme + (user + token + "@") + rest == scheme + user + token + "@" + rest
  {
  }

  /** The errors `clone_repository` raises before cloning. */
  datatype CloneError =
    | MissingGitToken      // line 70
    | SshUrl               // line 74
    | UnsupportedUrl       // line 76

  /**
   * Lines 67-76: the URL actually cloned. An `https://` URL needs
   * `GIT_TOKEN` in the environment and gets it injected; `git@` URLs and
   * every other scheme are refused.
   */
  function CloneUrl(gitUrl: string, env: map<string, string>): (r: Result<string, CloneError>)
    ensures StartsWith(gitUrl, "https://") && "GIT_TOKEN" !in env ==> r == Err(MissingGitToken)
    ensures StartsWith(gitUrl, "https://") && "GIT_TOKEN" in env ==>
      r == Ok(AddTokenToGitHttpUrl(gitUrl, env["GIT_TOKEN"]))
    ensures !StartsWith(gitUrl, "https://") && StartsWith(gitUrl, "git@") ==> r == Err(SshUrl)
    ensures !StartsWith(gitUrl, "https://") && !StartsWith(gitUrl, "git@") ==> r == Err(UnsupportedUrl)
  {
    if StartsWith(gitUrl, "https://") then
      if "GIT_TOKEN" !in env then Err(MissingGitToken)
      else Ok(AddTokenToGitHttpUrl(gitUrl, env["GIT_TOKEN"]))
    else if StartsWith(gitUrl, "git@") then Err(SshUrl)
    else Err(UnsupportedUrl)
  }

  /** What a clone did: the URL it cloned from, where to, and the identity it configured, if any. */
  datatype Clone = Clone(sourceUrl: string, workingDir: string, identity: Option<(string, string)>)

  /**
   * `clone_repository`: the dispatch above, then the clone into
   * `workingDir`, configuring user and email only when both are non-empty;
   * it returns `workingDir` unchanged.
   */
  function CloneRepository(gitUrl: string, workingDir: string, gitUser: Option<string>, gitEmail: Option<string>,
                           env: map<string, string>): (r: Result<Clone, CloneError>)
    ensures r.Ok? <==> CloneUrl(gitUrl, env).Ok?
    ensures r.Ok? ==> r.value.workingDir == workingDir && r.value.sourceUrl == CloneUrl(gitUrl, env).value
    ensures r.Ok? && r.value.identity.Some? ==>
      (gitUser.Some? && gitEmail.Some? && gitUser.value != "" && gitEmail.value != "" &&
       r.value.identity.value == (gitUser.value, gitEmail.value))
    ensures r.Ok? && r.value.identity.None? ==> gitUser.None? || gitEmail.None? || gitUser.value == "" || gitEmail.value == ""
  {
    var url :- CloneUrl(gitUrl, env);
    var identity :=
      if gitUser.Some? && gitEmail.Some? && gitUser.value != "" && gitEmail.value != ""
      then Some((gitUser.value, gitEmail.value)) else None;
    Ok(Clone(url, workingDir, identity))
  }
}
