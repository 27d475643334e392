/**
 * The two HTTP functions that turn a push-feature request into a
 * workflow-trigger message: which request fields are forwarded, which are
 * required, and the message published. Publishing itself is outside the
 * model: a response records what would be published, and where.
 */
module Webhooks {
  import opened Wrappers
  import opened Values

  /** The JSON keys `publish` forwards (workflow_http_pub/push_feature_request/main.py:35-47). */
  const JsonParameterKeys: seq<string> := [
    "git_url", "source_branch", "feature_branch", "author", "git_user", "git_email",
    "feature_request", "agent", "model", "provider", "extra_flags"]

  /** The form keys `push_feature_request` forwards (push_feature_request/main.py:20-29). */
  const FormParameterKeys: seq<string> := [
    "git_url", "git_user", "git_email", "feature_request", "agent", "model", "provider"]

  const DefaultTopic: string := "workflow-trigger-topic"
  const DefaultWorkflow: string := "push_feature"

  /** `os.environ.get(name, default)`. */
  function EnvOr(env: map<string, string>, name: string, default: string): string {
    if name in env then env[name] else default
  }

  /**
   * The parameter dict: one entry per key, in key order, holding
   * `source.get(key)`, with the entries whose value is `None` removed.
   * `isNone` says which values are Python's `None`.
   */
  function KeptParameters<T>(keys: seq<string>, source: seq<(string, T)>, isNone: T -> bool): (ps: seq<(string, T)>)
    ensures |ps| <= |keys|
    ensures forall i :: 0 <= i < |ps| ==> ps[i].0 in keys
    ensures NoRepeats(keys) ==> UniqueKeys(ps)
    decreases |keys|
  {
    if keys == [] then []
    else
      var init := keys[..|keys| - 1];
      var rest := KeptParameters(init, source, isNone);
      var key := keys[|keys| - 1];
      var v := Get(source, key);
      if v.Some? && !isNone(v.value) then
        KeptSnocDistinct(keys, rest, key, v.value);
        rest + [(key, v.value)]
      else
        assert forall x :: x in init ==> x in keys;
        rest
  }

  /** No key is named twice. */
  predicate NoRepeats(keys: seq<string>) {
    forall a, b :: 0 <= a < b < |keys| ==> keys[a] != keys[b]
  }

  /** Neither list of forwarded keys names a key twice, so neither filtered dict holds a key twice. */
  lemma ParameterKeysDistinct<T>(source: seq<(string, T)>, isNone: T -> bool)
    ensures NoRepeats(JsonParameterKeys) && NoRepeats(FormParameterKeys)
    ensures UniqueKeys(KeptParameters(JsonParameterKeys, source, isNone))
    ensures UniqueKeys(KeptParameters(FormParameterKeys, source, isNone))
  {
    forall a, b | 0 <= a < b < |JsonParameterKeys| ensures JsonParameterKeys[a] != JsonParameterKeys[b] {
      assert Distinguishable(JsonParameterKeys[a], JsonParameterKeys[b]);
    }
    forall a, b | 0 <= a < b < |FormParameterKeys| ensures FormParameterKeys[a] != FormParameterKeys[b] {
      assert Distinguishable(FormParameterKeys[a], FormParameterKeys[b]);
    }
  }

  /** Two non-empty keys differ when their lengths or their first characters differ. */
  predicate Distinguishable(k: string, l: string) {
    |k| != |l| || (k != [] && k[0] != l[0])
  }

  /** Appending the last key's entry to entries whose keys come from the earlier keys keeps them among the keys, and distinct. */
  lemma KeptSnocDistinct<T>(keys: seq<string>, rest: seq<(string, T)>, key: string, v: T)
    requires keys != [] && key == keys[|keys| - 1]
    requires forall i :: 0 <= i < |rest| ==> rest[i].0 in keys[..|keys| - 1]
    requires NoRepeats(keys[..|keys| - 1]) ==> UniqueKeys(rest)
    ensures forall i :: 0 <= i < |rest + [(key, v)]| ==> (rest + [(key, v)])[i].0 in keys
    ensures NoRepeats(keys) ==> UniqueKeys(rest + [(key, v)])
  {
    var init := keys[..|keys| - 1];
    var ps := rest + [(key, v)];
    forall i | 0 <= i < |ps| ensures ps[i].0 in keys {
      if i < |rest| {
        assert ps[i] == rest[i];
        assert rest[i].0 in init;
      }
    }
    if NoRepeats(keys) {
      assert NoRepeats(init);
      forall i | 0 <= i < |rest| ensures rest[i].0 != key {
        assert rest[i].0 in init;
        var k :| 0 <= k < |init| && init[k] == rest[i].0;
        assert keys[k] == init[k];
      }
      forall a, b | 0 <= a < b < |ps| ensures ps[a].0 != ps[b].0 {
        if b < |rest| {
          assert ps[a] == rest[a] && ps[b] == rest[b];
        } else {
          assert ps[a] == rest[a];
        }
      }
    }
  }

  /** What the filtered dict holds for `key`: the request's value when the key is forwarded and the value is not `None`. */
  function Forwarded<T>(keys: seq<string>, source: seq<(string, T)>, isNone: T -> bool, key: string): Option<T> {
    if key in keys && Get(source, key).Some? && !isNone(Get(source, key).value) then Get(source, key) else None
  }

  /** Looking a key up after appending a pair. */
  lemma GetSnoc<T>(entries: seq<(string, T)>, k: string, v: T, key: string)
    ensures Get(entries + [(k, v)], key) ==
      if Get(entries, key).Some? then Get(entries, key) else if key == k then Some(v) else None
  {
    if entries != [] {
      assert (entries + [(k, v)])[1..] == entries[1..] + [(k, v)];
      GetSnoc(entries[1..], k, v, key);
    }
  }

  /**
   * The filtered dict holds only forwarded keys, each with its request
   * value, never `None`; and every forwarded key whose value is not `None`
   * is there with that value.
   */
  lemma {:induction false} KeptParametersSpec<T>(keys: seq<string>, source: seq<(string, T)>, isNone: T -> bool)
    ensures forall i :: 0 <= i < |KeptParameters(keys, source, isNone)| ==>
      KeptParameters(keys, source, isNone)[i].0 in keys
    ensures forall i :: 0 <= i < |KeptParameters(keys, source, isNone)| ==>
      !isNone(KeptParameters(keys, source, isNone)[i].1)
    ensures forall i :: 0 <= i < |KeptParameters(keys, source, isNone)| ==>
      Get(source, KeptParameters(keys, source, isNone)[i].0) == Some(KeptParameters(keys, source, isNone)[i].1)
    ensures forall key :: Get(KeptParameters(keys, source, isNone), key) == Forwarded(keys, source, isNone, key)
    decreases |keys|
  {
    if keys != [] {
      var init := keys[..|keys| - 1];
      var key := keys[|keys| - 1];
      assert keys == init + [key];
      KeptParametersSpec(init, source, isNone);
      assert forall x :: x in init ==> x in keys;
      var rest := KeptParameters(init, source, isNone);
      var v := Get(source, key);
      if v.Some? && !isNone(v.value) {
        var ps := rest + [(key, v.value)];
        forall i | 0 <= i < |ps| ensures ps[i].0 in keys && !isNone(ps[i].1) && Get(source, ps[i].0) == Some(ps[i].1) {
          if i < |rest| {
            assert ps[i] == rest[i];
          }
        }
        forall k ensures Get(rest + [(key, v.value)], k) == Forwarded(keys, source, isNone, k) {
          GetSnoc(rest, key, v.value, k);
        }
      }
    }
  }

  /** An HTTP response, and the message it published, if any. */
  datatype Response = Response(status: int, text: string, published: Option<Message>)

  /** A published message: the topic and the JSON payload. */
  datatype Message = Message(topic: string, payload: Json)

  /** The trigger message: the workflow to run and its parameters. */
  function Payload(workflow: string, parameters: seq<(string, Json)>): Json {
    JObj([("workflow", JStr(workflow)), ("parameters", JObj(parameters))])
  }

  /** `d.get(key)` is truthy. */
  predicate TruthyAt(entries: seq<(string, Json)>, key: string) {
    Get(entries, key).Some? && Truthy(Get(entries, key).value)
  }

  /**
   * `publish`: only POST is accepted; the JSON body's eleven keys are
   * forwarded without their `None` (JSON `null`) values; `git_url` and
   * `feature_request` must be truthy; the payload names `TARGET_WORKFLOW`
   * and goes to `PUBSUB_TOPIC`. `messageId` is what Pub/Sub answers.
   */
  function Publish(httpMethod: string, body: seq<(string, Json)>, env: map<string, string>, messageId: string): (r: Response)
    ensures httpMethod != "POST" ==> r == Response(405, "Only POST requests are accepted", None)
    ensures httpMethod == "POST" && !(TruthyAt(body, "git_url") && TruthyAt(body, "feature_request")) ==>
      r == Response(400, "Missing required parameters", None)
    ensures r.published.Some? <==> httpMethod == "POST" && TruthyAt(body, "git_url") && TruthyAt(body, "feature_request")
    ensures r.published.Some? ==>
      var topic := EnvOr(env, "PUBSUB_TOPIC", DefaultTopic);
      r.status == 200 && r.text == "Published message to " + topic + " - " + messageId &&
      r.published.value.topic == topic &&
      r.published.value.payload.JObj? &&
      Get(r.published.value.payload.entries, "workflow") == Some(JStr(EnvOr(env, "TARGET_WORKFLOW", DefaultWorkflow))) &&
      Get(r.published.value.payload.entries, "parameters").Some? &&
      Get(r.published.value.payload.entries, "parameters").value.JObj? &&
      forall key :: Get(Get(r.published.value.payload.entries, "parameters").value.entries, key) ==
        Forwarded(JsonParameterKeys, body, (j: Json) => j.JNull?, key)
  {
    if httpMethod != "POST" then Response(405, "Only POST requests are accepted", None)
    else
      var topic := EnvOr(env, "PUBSUB_TOPIC", DefaultTopic);
      var workflow := EnvOr(env, "TARGET_WORKFLOW", DefaultWorkflow);
      var parameters := KeptParameters(JsonParameterKeys, body, (j: Json) => j.JNull?);
      KeptParametersSpec(JsonParameterKeys, body, (j: Json) => j.JNull?);
      assert Get(parameters, "git_url") == Forwarded(JsonParameterKeys, body, (j: Json) => j.JNull?, "git_url");
      assert Get(parameters, "feature_request") == Forwarded(JsonParameterKeys, body, (j: Json) => j.JNull?, "feature_request");
      if !(TruthyAt(parameters, "git_url") && TruthyAt(parameters, "feature_request")) then
        Response(400, "Missing required parameters", None)
      else
        Response(200, "Published message to " + topic + " - " + messageId, Some(Message(topic, Payload(workflow, parameters))))
  }

  /** The form values as JSON strings, as `json.dumps` writes them. */
  function AsJsonStrings(entries: seq<(string, string)>): (js: seq<(string, Json)>)
    ensures |js| == |entries|
    ensures forall i :: 0 <= i < |entries| ==> js[i] == (entries[i].0, JStr(entries[i].1))
  {
    seq(|entries|, i requires 0 <= i < |entries| => (entries[i].0, JStr(entries[i].1)))
  }

  /** Looking a key up in the JSON rendering of a form dict. */
  lemma {:induction false} GetAsJsonStrings(entries: seq<(string, string)>, key: string)
    ensures Get(AsJsonStrings(entries), key) == if Get(entries, key).Some? then Some(JStr(Get(entries, key).value)) else None
    decreases |entries|
  {
    if entries != [] {
      assert AsJsonStrings(entries)[1..] == AsJsonStrings(entries[1..]);
      GetAsJsonStrings(entries[1..], key);
    }
  }

  /** A form field is present and non-empty. */
  predicate FilledAt(form: seq<(string, string)>, key: string) {
    Get(form, key).Some? && Get(form, key).value != ""
  }

  /**
   * `push_feature_request`: the form's seven keys are forwarded (form
   * values are never `None`, so every present one is kept); `git_url` and
   * `feature_request` must be non-empty; the payload names
   * `PUSH_FEATURE_WORKFLOW` and goes to `PUBSUB_TOPIC`.
   */
  function PushFeatureRequest(form: seq<(string, string)>, env: map<string, string>): (r: Response)
    ensures !(FilledAt(form, "git_url") && FilledAt(form, "feature_request")) ==>
      r == Response(400, "Missing required parameters", None)
    ensures r.published.Some? <==> FilledAt(form, "git_url") && FilledAt(form, "feature_request")
    ensures r.published.Some? ==>
      var topic := EnvOr(env, "PUBSUB_TOPIC", DefaultTopic);
      r.status == 200 && r.text == "Published message to " + topic &&
      r.published.value.topic == topic &&
      r.published.value.payload.JObj? &&
      Get(r.published.value.payload.entries, "workflow") == Some(JStr(EnvOr(env, "PUSH_FEATURE_WORKFLOW", DefaultWorkflow))) &&
      Get(r.published.value.payload.entries, "parameters").Some? &&
      Get(r.published.value.payload.entries, "parameters").value.JObj? &&
      forall key :: Get(Get(r.published.value.payload.entries, "parameters").value.entries, key) ==
        if key in FormParameterKeys && Get(form, key).Some? then Some(JStr(Get(form, key).value)) else None
  {
    var topic := EnvOr(env, "PUBSUB_TOPIC", DefaultTopic);
    var workflow := EnvOr(env, "PUSH_FEATURE_WORKFLOW", DefaultWorkflow);
    var parameters := KeptParameters(FormParameterKeys, form, NoneFormValue);
    FormForwarded(form);
    if !(FilledAt(parameters, "git_url") && FilledAt(parameters, "feature_request")) then
      Response(400, "Missing required parameters", None)
    else
      Response(200, "Published message to " + topic, Some(Message(topic, Payload(workflow, AsJsonStrings(parameters)))))
  }

  /** A form value is a string, never `None`. */
  function NoneFormValue(v: string): bool {
    false
  }

  /**
   * The form's dict keeps `git_url` and `feature_request` as the form has
   * them, and its JSON rendering holds exactly the form's values under the
   * seven keys.
   */
  lemma FormForwarded(form: seq<(string, string)>)
    ensures var ps := KeptParameters(FormParameterKeys, form, NoneFormValue);
      Get(ps, "git_url") == Get(form, "git_url") && Get(ps, "feature_request") == Get(form, "feature_request")
    ensures forall key :: (Get(AsJsonStrings(KeptParameters(FormParameterKeys, form, NoneFormValue)), key) ==
      if key in FormParameterKeys && Get(form, key).Some? then Some(JStr(Get(form, key).value)) else None)
  {
    var ps := KeptParameters(FormParameterKeys, form, NoneFormValue);
    KeptParametersSpec(FormParameterKeys, form, NoneFormValue);
    assert "git_url" in FormParameterKeys && "feature_request" in FormParameterKeys;
    forall key ensures Get(AsJsonStrings(ps), key) ==
      if key in FormParameterKeys && Get(form, key).Some? then Some(JStr(Get(form, key).value)) else None {
      GetAsJsonStrings(ps, key);
    }
  }

  /** The form adapter forwards no key outside its seven, whatever the form holds. */
  lemma FormDropsUnlisted(form: seq<(string, string)>, env: map<string, string>, key: string)
    requires key !in FormParameterKeys
    ensures var r := PushFeatureRequest(form, env);
      r.published.Some? ==> Get(Get(r.published.value.payload.entries, "parameters").value.entries, key).None?
  {
  }

  /** The form's seven keys are 5, 7, 8, 9 or 15 characters long, so no key of another length is one of them. */
  lemma {:induction false} NotFormKeyByLength(key: string)
    requires |key| != 5 && !(7 <= |key| <= 9) && |key| != 15
    ensures key !in FormParameterKeys
  {
    FormKeyLengths();
  }

  /** The lengths of the form's seven keys. */
  lemma FormKeyLengths()
    ensures forall k :: k in FormParameterKeys ==> |k| == 5 || 7 <= |k| <= 9 || |k| == 15
  {
  }

  /** The form adapter never forwards the branch, author or flag fields, whatever the form holds. */
  lemma FormDropsBranchFields(form: seq<(string, string)>, env: map<string, string>)
    ensures var r := PushFeatureRequest(form, env);
      r.published.Some? ==>
        var ps := Get(r.published.value.payload.entries, "parameters").value.entries;
        Get(ps, "source_branch").None? && Get(ps, "feature_branch").None? &&
        Get(ps, "author").None? && Get(ps, "extra_flags").None?
  {
    NotFormKeyByLength("source_branch");
    NotFormKeyByLength("feature_branch");
    NotFormKeyByLength("author");
    NotFormKeyByLength("extra_flags");
    FormDropsUnlisted(form, env, "source_branch");
    FormDropsUnlisted(form, env, "feature_branch");
    FormDropsUnlisted(form, env, "author");
    FormDropsUnlisted(form, env, "extra_flags");
  }
}
