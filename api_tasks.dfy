/**
 * `_flatten_parameters` and the argument list `execute_task` hands to a
 * Cloud Run job: a parameters dict becomes alternating `--flag value`
 * strings, nested keys joined with dots.
 */
module ApiTasks {
  import opened Wrappers
  import opened Strings
  import opened Values

  /** The prefix the keys of a nested dict are appended to: `--` at the top, `<prefix>.` below it. */
  function Sep(prefix: string): string {
    if prefix != "--" then prefix + "." else prefix
  }

  /** `[prefix, value]` for a value that is not a dict: a list's text is wrapped in double quotes. */
  function Leaf(v: Json, prefix: string, show: Json -> string): seq<string> {
    if v.JArr? then [prefix, "\"" + PyStr(v, show) + "\""] else [prefix, PyStr(v, show)]
  }

  /**
   * `_flatten_parameters(v, prefix)`: a dict contributes the flattenings of
   * its values in key order, each under `Sep(prefix)` followed by its key;
   * any other value is a flag and its text.
   */
  function Flatten(v: Json, prefix: string, show: Json -> string): (r: seq<string>)
    ensures |r| % 2 == 0
    decreases v, 1
  {
    if v.JObj? then FlattenEntries(v, Sep(prefix), |v.entries|, show) else Leaf(v, prefix, show)
  }

  /** The flattenings of the first `n` values of the dict `v`, concatenated (the `extend` loop of lines 14-15). */
  function FlattenEntries(v: Json, prefix: string, n: nat, show: Json -> string): (r: seq<string>)
    requires v.JObj? && n <= |v.entries|
    ensures |r| % 2 == 0
    decreases v, 0, n
  {
    if n == 0 then []
    else
      var (key, value) := v.entries[n - 1];
      assert v.entries[n - 1] in v.entries;
      FlattenEntries(v, prefix, n - 1, show) + Flatten(value, prefix + key, show)
  }

  /** Every flag of a flattening, at the even positions, extends the prefix it was flattened under. */
  lemma {:induction false} FlattenFlags(v: Json, prefix: string, show: Json -> string)
    ensures FlagsUnder(Flatten(v, prefix, show), prefix)
    decreases v, 1
  {
    if v.JObj? {
      FlattenEntriesFlags(v, Sep(prefix), |v.entries|, show);
      FlagsUnderShorter(Flatten(v, prefix, show), Sep(prefix), prefix);
    }
  }

  lemma {:induction false} FlattenEntriesFlags(v: Json, prefix: string, n: nat, show: Json -> string)
    requires v.JObj? && n <= |v.entries|
    ensures FlagsUnder(FlattenEntries(v, prefix, n, show), prefix)
    decreases v, 0, n
  {
    if n > 0 {
      var (key, value) := v.entries[n - 1];
      assert v.entries[n - 1] in v.entries;
      var init := FlattenEntries(v, prefix, n - 1, show);
      var last := Flatten(value, prefix + key, show);
      FlattenEntriesFlags(v, prefix, n - 1, show);
      FlattenFlags(value, prefix + key, show);
      FlagsUnderShorter(last, prefix + key, prefix);
      FlagsUnderAppend(init, last, prefix);
    }
  }

  /** Every flag of an argument list, at the even positions, starts with `prefix`. */
  predicate FlagsUnder(r: seq<string>, prefix: string) {
    forall i :: 0 <= i < |r| && i % 2 == 0 ==> StartsWith(r[i], prefix)
  }

  /** Flags under a longer prefix are under each of its prefixes. */
  lemma FlagsUnderShorter(r: seq<string>, long: string, short: string)
    requires FlagsUnder(r, long) && StartsWith(long, short)
    ensures FlagsUnder(r, short)
  {
    forall i | 0 <= i < |r| && i % 2 == 0 ensures StartsWith(r[i], short) {
      assert r[i][..|long|][..|short|] == r[i][..|short|];
    }
  }

  /** Two argument lists of whole pairs with their flags under `prefix` concatenate to one. */
  lemma FlagsUnderAppend(a: seq<string>, b: seq<string>, prefix: string)
    requires |a| % 2 == 0 && FlagsUnder(a, prefix) && FlagsUnder(b, prefix)
    ensures FlagsUnder(a + b, prefix)
  {
    forall i | 0 <= i < |a + b| && i % 2 == 0 ensures StartsWith((a + b)[i], prefix) {
      if i < |a| {
        assert (a + b)[i] == a[i];
      } else {
        var j := i - |a|;
        assert j % 2 == 0 && (a + b)[i] == b[j];
      }
    }
  }

  /** A list or tuple becomes exactly the flag and its quoted text; any other non-dict value the flag and its text. */
  lemma FlattenLeaf(v: Json, prefix: string, show: Json -> string)
    requires !v.JObj?
    ensures v.JArr? ==> Flatten(v, prefix, show) == [prefix, "\"" + show(v) + "\""]
    ensures !v.JArr? ==> Flatten(v, prefix, show) == [prefix, PyStr(v, show)]
  {
  }

  /** An empty dict contributes nothing. */
  lemma FlattenEmptyDict(prefix: string, show: Json -> string)
    ensures Flatten(JObj([]), prefix, show) == []
  {
  }

  /** A dict flattens to the in-order concatenation of its values' flattenings. */
  lemma FlattenDictSnoc(entries: seq<(string, Json)>, key: string, value: Json, prefix: string, show: Json -> string)
    ensures Flatten(JObj(entries + [(key, value)]), prefix, show) ==
      Flatten(JObj(entries), prefix, show) + Flatten(value, Sep(prefix) + key, show)
  {
    var v := JObj(entries + [(key, value)]);
    FlattenEntriesPrefix(v, JObj(entries), Sep(prefix), |entries|, show);
  }

  /** Flattening the first `n` values depends only on those values. */
  lemma {:induction false} FlattenEntriesPrefix(v: Json, w: Json, prefix: string, n: nat, show: Json -> string)
    requires v.JObj? && w.JObj? && n <= |v.entries| && n <= |w.entries|
    requires v.entries[..n] == w.entries[..n]
    ensures FlattenEntries(v, prefix, n, show) == FlattenEntries(w, prefix, n, show)
  {
    if n > 0 {
      assert v.entries[..n - 1] == w.entries[..n - 1];
      assert v.entries[n - 1] == v.entries[..n][n - 1];
      FlattenEntriesPrefix(v, w, prefix, n - 1, show);
    }
  }

  /** Every key of a dict, at any depth, is non-empty. */
  predicate NonEmptyKeys(v: Json)
    decreases v, 1
  {
    v.JObj? ==> NonEmptyKeysUpTo(v, |v.entries|)
  }

  /** The first `n` keys of the dict `v` are non-empty, and so are all keys below them. */
  predicate NonEmptyKeysUpTo(v: Json, n: nat)
    requires v.JObj? && n <= |v.entries|
    decreases v, 0, n
  {
    n == 0 || (NonEmptyKeysUpTo(v, n - 1) && v.entries[n - 1].0 != "" &&
      assert v.entries[n - 1] in v.entries; NonEmptyKeys(v.entries[n - 1].1))
  }

  /**
   * The leaves of a parameters value with their key paths, in key order:
   * a dict contributes the leaves of each value with its key in front;
   * anything else, including a list, is one leaf with the empty path.
   */
  function Leaves(v: Json): seq<(seq<string>, Json)>
    decreases v, 1
  {
    if v.JObj? then LeavesUpTo(v, |v.entries|) else [([], v)]
  }

  function LeavesUpTo(v: Json, n: nat): seq<(seq<string>, Json)>
    requires v.JObj? && n <= |v.entries|
    decreases v, 0, n
  {
    if n == 0 then []
    else
      var (key, value) := v.entries[n - 1];
      assert v.entries[n - 1] in v.entries;
      LeavesUpTo(v, n - 1) + Under(key, Leaves(value))
  }

  /** The leaves with `key` put in front of each path. */
  function Under(key: string, leaves: seq<(seq<string>, Json)>): seq<(seq<string>, Json)> {
    seq(|leaves|, i requires 0 <= i < |leaves| => ([key] + leaves[i].0, leaves[i].1))
  }

  /** The flag of a leaf: `prefix` for the empty path, else the dotted path after `Sep(prefix)`, as in `--outer.inner`. */
  function Flag(prefix: string, path: seq<string>): string {
    if path == [] then prefix else Sep(prefix) + Join(path, '.')
  }

  /** The argument list of the leaves: each leaf's flag, then its text. */
  function Render(prefix: string, leaves: seq<(seq<string>, Json)>, show: Json -> string): seq<string>
    decreases |leaves|
  {
    if leaves == [] then []
    else
      var (path, x) := leaves[|leaves| - 1];
      Render(prefix, leaves[..|leaves| - 1], show) + Leaf(x, Flag(prefix, path), show)
  }

  lemma {:induction false} RenderAppend(prefix: string, a: seq<(seq<string>, Json)>, b: seq<(seq<string>, Json)>, show: Json -> string)
    ensures Render(prefix, a + b, show) == Render(prefix, a, show) + Render(prefix, b, show)
    decreases |b|
  {
    if b != [] {
      assert (a + b)[..|a + b| - 1] == a + b[..|b| - 1];
      assert (a + b)[|a + b| - 1] == b[|b| - 1];
      RenderAppend(prefix, a, b[..|b| - 1], show);
    } else {
      assert a + b == a;
    }
  }

  /** Rendering under `Sep(prefix) + key` is rendering with `key` in front of every path. */
  lemma {:induction false} RenderUnder(prefix: string, key: string, leaves: seq<(seq<string>, Json)>, show: Json -> string)
    requires key != ""
    ensures Render(Sep(prefix) + key, leaves, show) == Render(prefix, Under(key, leaves), show)
    decreases |leaves|
  {
    if leaves != [] {
      var init := leaves[..|leaves| - 1];
      var path := leaves[|leaves| - 1].0;
      var x := leaves[|leaves| - 1].1;
      var under := Under(key, leaves);
      assert under[..|leaves| - 1] == Under(key, init);
      assert under[|leaves| - 1] == ([key] + path, x);
      calc {
        Render(Sep(prefix) + key, leaves, show);
        Render(Sep(prefix) + key, init, show) + Leaf(x, Flag(Sep(prefix) + key, path), show);
        { RenderUnder(prefix, key, init, show); FlagUnder(prefix, key, path); }
        Render(prefix, Under(key, init), show) + Leaf(x, Flag(prefix, [key] + path), show);
        Render(prefix, under, show);
      }
    }
  }

  /** The flag of a path under `Sep(prefix) + key` is the flag of the path with `key` in front. */
  lemma FlagUnder(prefix: string, key: string, path: seq<string>)
    requires key != ""
    ensures Flag(Sep(prefix) + key, path) == Flag(prefix, [key] + path)
  {
    var p := Sep(prefix) + key;
    assert p != "--" by {
      if prefix == "--" {
        assert |p| > 2;
      } else {
        assert p[|prefix|] == '.';
        if |p| == 2 {
          assert prefix == [] && p[0] == '.';
        }
      }
    }
    if path != [] {
      assert ([key] + path)[1..] == path;
    }
  }

  /**
   * With non-empty keys, flattening is rendering the leaves: each leaf gives
   * its dotted key path as the flag, then its text.
   */
  lemma {:induction false} FlattenIsRender(v: Json, prefix: string, show: Json -> string)
    requires NonEmptyKeys(v)
    ensures Flatten(v, prefix, show) == Render(prefix, Leaves(v), show)
    decreases v, 1
  {
    if v.JObj? {
      FlattenEntriesIsRender(v, prefix, |v.entries|, show);
    } else {
      assert Render(prefix, Leaves(v), show) == Render(prefix, [], show) + Leaf(v, prefix, show);
    }
  }

  lemma {:induction false} FlattenEntriesIsRender(v: Json, prefix: string, n: nat, show: Json -> string)
    requires v.JObj? && n <= |v.entries| && NonEmptyKeysUpTo(v, n)
    ensures FlattenEntries(v, Sep(prefix), n, show) == Render(prefix, LeavesUpTo(v, n), show)
    decreases v, 0, n
  {
    if n > 0 {
      var key := v.entries[n - 1].0;
      var value := v.entries[n - 1].1;
      assert v.entries[n - 1] in v.entries;
      FlattenEntriesIsRender(v, prefix, n - 1, show);
      RenderEntry(prefix, key, value, LeavesUpTo(v, n - 1), show);
      FlattenEntriesStep(v, Sep(prefix), n, show);
      LeavesUpToStep(v, n);
      EqualByParts(FlattenEntries(v, Sep(prefix), n, show), FlattenEntries(v, Sep(prefix), n - 1, show),
        Flatten(value, Sep(prefix) + key, show), Render(prefix, LeavesUpTo(v, n - 1), show),
        LeavesUpTo(v, n), LeavesUpTo(v, n - 1) + Under(key, Leaves(value)), prefix, show);
    } else {
      assert LeavesUpTo(v, 0) == [] && FlattenEntries(v, Sep(prefix), 0, show) == [];
    }
  }

  /** One more entry appends its value's flattening under `prefix + key`. */
  lemma FlattenEntriesStep(v: Json, prefix: string, n: nat, show: Json -> string)
    requires v.JObj? && 0 < n <= |v.entries|
    ensures FlattenEntries(v, prefix, n, show) ==
      FlattenEntries(v, prefix, n - 1, show) + Flatten(v.entries[n - 1].1, prefix + v.entries[n - 1].0, show)
  {
  }

  /** One more entry appends its value's leaves with its key in front. */
  lemma LeavesUpToStep(v: Json, n: nat)
    requires v.JObj? && 0 < n <= |v.entries|
    ensures LeavesUpTo(v, n) == LeavesUpTo(v, n - 1) + Under(v.entries[n - 1].0, Leaves(v.entries[n - 1].1))
  {
  }

  /** The last step of the flattening-is-rendering induction, kept apart from the induction's own facts. */
  lemma EqualByParts(all: seq<string>, init: seq<string>, last: seq<string>, rendered: seq<string>,
                     leaves: seq<(seq<string>, Json)>, parts: seq<(seq<string>, Json)>, prefix: string, show: Json -> string)
    requires all == init + last && init == rendered
    requires rendered + last == Render(prefix, parts, show) && leaves == parts
    ensures all == Render(prefix, leaves, show)
  {
  }

  /** Rendering the leaves of one more entry appends the flattening of its value under `prefix.key`. */
  lemma {:induction false} RenderEntry(prefix: string, key: string, value: Json,
                                       init: seq<(seq<string>, Json)>, show: Json -> string)
    requires key != "" && NonEmptyKeys(value)
    ensures Render(prefix, init, show) + Flatten(value, Sep(prefix) + key, show) ==
      Render(prefix, init + Under(key, Leaves(value)), show)
    decreases value, 2
  {
    var under := Under(key, Leaves(value));
    FlattenIsRender(value, Sep(prefix) + key, show);
    RenderUnder(prefix, key, Leaves(value), show);
    RenderAppend(prefix, init, under, show);
  }

  /**
   * Lines 31-33 of `execute_task`: the dumped parameters (none: an empty
   * dict) with `job_id` set, flattened from the top.
   */
  function JobArgs(parameters: Option<seq<(string, Json)>>, jobId: string, show: Json -> string): (args: seq<string>)
    ensures |args| % 2 == 0
  {
    var values := if parameters.None? then [] else parameters.value;
    Flatten(JObj(SetKey(values, "job_id", JStr(jobId))), "--", show)
  }

  /** Without parameters, the arguments are exactly `--job_id` and the job id. */
  lemma JobArgsWithoutParameters(jobId: string, show: Json -> string)
    ensures JobArgs(None, jobId, show) == ["--job_id", jobId]
  {
    var none: seq<(string, Json)> := [];
    assert SetKey(none, "job_id", JStr(jobId)) == none + [("job_id", JStr(jobId))];
    FlattenDictSnoc(none, "job_id", JStr(jobId), "--", show);
    assert Flatten(JObj(none), "--", show) == [];
    assert "--" + "job_id" == "--job_id";
  }

  /** The arguments always hold the flag `--job_id` followed by the job id. */
  lemma JobArgsHoldJobId(parameters: Option<seq<(string, Json)>>, jobId: string, show: Json -> string)
    ensures exists i :: (0 <= i < |JobArgs(parameters, jobId, show)| - 1 && i % 2 == 0 &&
      JobArgs(parameters, jobId, show)[i] == "--job_id" && JobArgs(parameters, jobId, show)[i + 1] == jobId)
  {
    var values := if parameters.None? then [] else parameters.value;
    var entries := SetKey(values, "job_id", JStr(jobId));
    SetKeyGet(values, "job_id", JStr(jobId));
    var k :| 0 <= k < |entries| && entries[k] == ("job_id", JStr(jobId));
    var v := JObj(entries);
    var all := FlattenEntries(v, "--", |entries|, show);
    assert JobArgs(parameters, jobId, show) == all by {
      assert Sep("--") == "--";
    }
    var i := JobIdEntryAt(v, k, jobId, show);
    assert all[i] == "--job_id" && all[i + 1] == jobId;
  }

  /** The `k`-th value, the job id under `job_id`, puts the flag and the id at an even position of the flattening. */
  lemma JobIdEntryAt(v: Json, k: nat, jobId: string, show: Json -> string) returns (i: nat)
    requires v.JObj? && k < |v.entries| && v.entries[k] == ("job_id", JStr(jobId))
    ensures var all := FlattenEntries(v, "--", |v.entries|, show);
      i + 1 < |all| && i % 2 == 0 && all[i] == "--job_id" && all[i + 1] == jobId
  {
    var before := FlattenEntries(v, "--", k, show);
    var at := Flatten(v.entries[k].1, "--" + v.entries[k].0, show);
    assert at == ["--job_id", jobId] by {
      assert "--" + "job_id" == "--job_id";
    }
    FlattenEntriesHasEntry(v, "--", k, show);
    var all := FlattenEntries(v, "--", |v.entries|, show);
    i := |before|;
    assert all[i] == all[i..i + 2][0] && all[i + 1] == all[i..i + 2][1];
  }

  /** The flattening of a dict holds the flattening of its `k`-th value right after those of the values before it. */
  lemma FlattenEntriesHasEntry(v: Json, prefix: string, k: nat, show: Json -> string)
    requires v.JObj? && k < |v.entries|
    ensures
      var before := FlattenEntries(v, prefix, k, show);
      var at := Flatten(v.entries[k].1, prefix + v.entries[k].0, show);
      var all := FlattenEntries(v, prefix, |v.entries|, show);
      |before| + |at| <= |all| && all[|before|..|before| + |at|] == at
  {
    var before := FlattenEntries(v, prefix, k, show);
    var at := Flatten(v.entries[k].1, prefix + v.entries[k].0, show);
    assert FlattenEntries(v, prefix, k + 1, show) == before + at;
    var rest := FlattenEntriesGrow(v, prefix, k + 1, |v.entries|, show);
    assert FlattenEntries(v, prefix, |v.entries|, show) == before + at + rest;
    assert (before + at + rest)[|before|..|before| + |at|] == at;
  }

  /** Flattening more of the dict's values only extends the result. */
  lemma {:induction false} FlattenEntriesGrow(v: Json, prefix: string, m: nat, n: nat, show: Json -> string)
    returns (rest: seq<string>)
    requires v.JObj? && m <= n <= |v.entries|
    ensures FlattenEntries(v, prefix, n, show) == FlattenEntries(v, prefix, m, show) + rest
    decreases n - m
  {
    if m == n {
      rest := [];
      AppendEmpty(FlattenEntries(v, prefix, m, show), rest);
    } else {
      var more := FlattenEntriesGrow(v, prefix, m, n - 1, show);
      var last := Flatten(v.entries[n - 1].1, prefix + v.entries[n - 1].0, show);
      FlattenEntriesStep(v, prefix, n, show);
      rest := more + last;
      AppendRegroup(FlattenEntries(v, prefix, n, show), FlattenEntries(v, prefix, n - 1, show),
        FlattenEntries(v, prefix, m, show), more, last);
    }
  }

  /** Regrouping a concatenation, apart from the functions that produced its parts. */
  lemma AppendRegroup(all: seq<string>, mid: seq<string>, first: seq<string>, more: seq<string>, last: seq<string>)
    requires all == mid + last && mid == first + more
    ensures all == first + (more + last)
  {
  }

  lemma AppendEmpty(s: seq<string>, empty: seq<string>)
    requires empty == []
    ensures s == s + empty
  {
  }
}
