/**
 * `_get_sorted_submodels`: the order in which the record-like `$defs`
 * (those with `properties`) are turned into models, so that every model is
 * built after the models its properties reference directly.
 */
module SubmodelOrder {
  import opened Wrappers
  import opened Strings
  import opened Values
  import opened Schema

  /** The `$defs` pairs that have a `properties` key, in order. */
  function RecordDefs(defs: seq<(string, Node)>): (r: seq<(string, Node)>)
    ensures forall e :: e in r ==> e in defs && e.1.properties.Keyed?
    ensures forall e :: e in defs && e.1.properties.Keyed? ==> e in r
    decreases |defs|
  {
    if defs == [] then []
    else
      var init := RecordDefs(defs[..|defs| - 1]);
      assert forall e :: e in defs ==> e in defs[..|defs| - 1] || e == defs[|defs| - 1];
      if defs[|defs| - 1].1.properties.Keyed? then init + [defs[|defs| - 1]] else init
  }

  /** The list comprehension over `defs.keys()` that keeps the names of record-like definitions. */
  function RecordNames(defs: seq<(string, Node)>): seq<string> {
    Keys(RecordDefs(defs))
  }

  /** The def name a property's `$ref` names (its text after the last `/`), when that is a record-like def. */
  function RefTarget(prop: Node, names: seq<string>): Option<string> {
    if prop.ref.Some? && LastSegment(prop.ref.value, '/') in names then Some(LastSegment(prop.ref.value, '/'))
    else None
  }

  /** The dependencies one record contributes, one per referencing property, in property order. */
  function DirectDeps(props: seq<(string, Node)>, names: seq<string>): seq<string>
    decreases |props|
  {
    if props == [] then []
    else
      var t := RefTarget(props[|props| - 1].1, names);
      DirectDeps(props[..|props| - 1], names) + (if t.Some? then [t.value] else [])
  }

  function Pairs(n: string, ds: seq<string>): seq<(string, string)> {
    seq(|ds|, i requires 0 <= i < |ds| => (n, ds[i]))
  }

  /** The dependency edges `(record, referenced record)` in the order the tables are filled. */
  function EdgesOf(records: seq<(string, Node)>, names: seq<string>): seq<(string, string)>
    decreases |records|
  {
    if records == [] then []
    else
      var (name, def) := records[|records| - 1];
      EdgesOf(records[..|records| - 1], names) + Pairs(name, DirectDeps(EntriesOf(def.properties), names))
  }

  /** The edges of one more record are appended after those of the records before it. */
  lemma EdgesOfStep(records: seq<(string, Node)>, i: nat, names: seq<string>)
    requires i < |records|
    ensures EdgesOf(records[..i + 1], names) ==
      EdgesOf(records[..i], names) + Pairs(records[i].0, DirectDeps(EntriesOf(records[i].1.properties), names))
  {
    assert records[..i + 1][..i] == records[..i];
  }

  /** The dependency graph of a schema's `$defs`. */
  function Graph(defs: seq<(string, Node)>): seq<(string, string)> {
    EdgesOf(RecordDefs(defs), RecordNames(defs))
  }

  /** `depends[m]` as filled: the targets of `m`'s edges, in edge order. */
  function Targets(edges: seq<(string, string)>, m: string): seq<string>
    decreases |edges|
  {
    if edges == [] then []
    else
      var e := edges[|edges| - 1];
      Targets(edges[..|edges| - 1], m) + (if e.0 == m then [e.1] else [])
  }

  /** `enabler[d]` as filled: the sources of the edges into `d`, in edge order. */
  function Sources(edges: seq<(string, string)>, d: string): seq<string>
    decreases |edges|
  {
    if edges == [] then []
    else
      var e := edges[|edges| - 1];
      Sources(edges[..|edges| - 1], d) + (if e.1 == d then [e.0] else [])
  }

  /** Each consecutive pair of `p` is a dependency edge. */
  ghost predicate IsPath(edges: seq<(string, string)>, p: seq<string>) {
    forall i :: 0 <= i < |p| - 1 ==> p[i + 1] in Targets(edges, p[i])
  }

  /** No chain of dependencies leads from a record back to itself. */
  ghost predicate Acyclic(edges: seq<(string, string)>) {
    forall p :: IsPath(edges, p) && |p| >= 2 ==> p[0] != p[|p| - 1]
  }

  /** Every record comes after each record it depends on. */
  ghost predicate RespectsDeps(order: seq<string>, edges: seq<(string, string)>) {
    forall i, d :: 0 <= i < |order| && d in Targets(edges, order[i]) ==> d in order[..i]
  }

  /** Python's `list.remove(x)`: drops the first occurrence of `x`. */
  function RemoveFirst(s: seq<string>, x: string): (r: seq<string>)
    requires x in s
    ensures |r| == |s| - 1
    ensures multiset(r) == multiset(s) - multiset{x}
  {
    if s[0] == x then
      assert s == [s[0]] + s[1..];
      s[1..]
    else
      assert s == [s[0]] + s[1..];
      [s[0]] + RemoveFirst(s[1..], x)
  }

  lemma TargetsSnoc(edges: seq<(string, string)>, e: (string, string), m: string)
    ensures Targets(edges + [e], m) == Targets(edges, m) + (if e.0 == m then [e.1] else [])
    ensures Sources(edges + [e], m) == Sources(edges, m) + (if e.1 == m then [e.0] else [])
  {
    assert (edges + [e])[..|edges|] == edges;
  }

  /** The targets of `m` are the second components of `m`'s edges; the sources of `d` the first components of the edges into `d`. */
  lemma {:induction false} TargetsSpec(edges: seq<(string, string)>, m: string, x: string)
    ensures x in Targets(edges, m) <==> (m, x) in edges
    ensures x in Sources(edges, m) <==> (x, m) in edges
    decreases |edges|
  {
    if edges != [] {
      var init := edges[..|edges| - 1];
      TargetsSpec(init, m, x);
      assert edges == init + [edges[|edges| - 1]];
    }
  }

  /** Each edge `m -> c` is listed once in `depends[m]` and once in `enabler[c]`. */
  lemma {:induction false} SourcesTargetsCount(edges: seq<(string, string)>, c: string, m: string)
    ensures multiset(Sources(edges, c))[m] == multiset(Targets(edges, m))[c]
    decreases |edges|
  {
    if edges != [] {
      SourcesTargetsCount(edges[..|edges| - 1], c, m);
    }
  }

  lemma {:induction false} DirectDepsInNames(props: seq<(string, Node)>, names: seq<string>)
    ensures forall d :: d in DirectDeps(props, names) ==> d in names
    decreases |props|
  {
    if props != [] {
      DirectDepsInNames(props[..|props| - 1], names);
    }
  }

  /** Both ends of every dependency edge are record-like defs. */
  lemma {:induction false} EdgesInNames(records: seq<(string, Node)>, names: seq<string>)
    requires forall e :: e in records ==> e.0 in names
    ensures forall e :: e in EdgesOf(records, names) ==> e.0 in names && e.1 in names
    decreases |records|
  {
    if records != [] {
      var init := records[..|records| - 1];
      var (name, def) := records[|records| - 1];
      assert forall e :: e in init ==> e in records;
      EdgesInNames(init, names);
      DirectDepsInNames(EntriesOf(def.properties), names);
    }
  }

  lemma EdgeEndsIn(edges: seq<(string, string)>, names: seq<string>)
    requires forall e :: e in edges ==> e.0 in names && e.1 in names
    ensures forall m, x :: x in Targets(edges, m) ==> m in names
    ensures forall m, x :: x in Targets(edges, m) ==> x in names
    ensures forall m, x :: x in Sources(edges, m) ==> m in names
    ensures forall m, x :: x in Sources(edges, m) ==> x in names
  {
    forall m, x | x in Targets(edges, m) ensures m in names {
      TargetsSpec(edges, m, x);
    }
    forall m, x | x in Targets(edges, m) ensures x in names {
      TargetsSpec(edges, m, x);
    }
    forall m, x | x in Sources(edges, m) ensures m in names {
      TargetsSpec(edges, m, x);
    }
    forall m, x | x in Sources(edges, m) ensures x in names {
      TargetsSpec(edges, m, x);
    }
  }

  /** Every edge of the dependency graph joins two record names. */
  lemma GraphInNames(defs: seq<(string, Node)>)
    ensures forall m, x :: x in Targets(Graph(defs), m) ==> m in RecordNames(defs)
    ensures forall m, x :: x in Targets(Graph(defs), m) ==> x in RecordNames(defs)
    ensures forall m, x :: x in Sources(Graph(defs), m) ==> m in RecordNames(defs)
    ensures forall m, x :: x in Sources(Graph(defs), m) ==> x in RecordNames(defs)
  {
    var records := RecordDefs(defs);
    var names := RecordNames(defs);
    forall e | e in records ensures e.0 in names {
      var i :| 0 <= i < |records| && records[i] == e;
    }
    EdgesInNames(records, names);
    EdgeEndsIn(Graph(defs), names);
  }

  lemma GraphFactsOf(defs: seq<(string, Node)>)
    requires UniqueKeys(defs)
    ensures GraphFacts(Graph(defs), RecordNames(defs))
  {
    RecordNamesDistinct(defs);
    var records := RecordDefs(defs);
    var names := RecordNames(defs);
    forall e | e in records ensures e.0 in names {
      var i :| 0 <= i < |records| && records[i] == e;
    }
    EdgesInNames(records, names);
  }

  /** Distinct `$defs` keys give distinct record names. */
  lemma {:induction false} RecordNamesDistinct(defs: seq<(string, Node)>)
    requires UniqueKeys(defs)
    ensures forall x :: multiset(RecordNames(defs))[x] <= 1
    decreases |defs|
  {
    if defs != [] {
      var init := defs[..|defs| - 1];
      assert UniqueKeys(init);
      RecordNamesDistinct(init);
      var last := defs[|defs| - 1];
      if last.1.properties.Keyed? {
        assert RecordNames(defs) == RecordNames(init) + [last.0];
      }
    }
  }

  lemma DirectDepsStep(props: seq<(string, Node)>, j: nat, names: seq<string>)
    requires j < |props|
    ensures DirectDeps(props[..j + 1], names) ==
      DirectDeps(props[..j], names) + (var t := RefTarget(props[j].1, names); if t.Some? then [t.value] else [])
  {
    assert props[..j + 1][..j] == props[..j];
  }

  lemma PairsSnoc(n: string, ds: seq<string>, d: string)
    ensures Pairs(n, ds + [d]) == Pairs(n, ds) + [(n, d)]
  {
  }

  /** `depends` and `enabler` hold, for every record name, the targets and sources of `edges`. */
  ghost predicate TablesMatch(depends: map<string, seq<string>>, enabler: map<string, seq<string>>,
                              names: seq<string>, edges: seq<(string, string)>)
  {
    (forall k :: k in depends <==> k in names) &&
    (forall k :: k in enabler <==> k in names) &&
    forall k :: k in names ==> depends[k] == Targets(edges, k) && enabler[k] == Sources(edges, k)
  }

  /** Lines 115-116 record one more edge `name -> d` in both tables. */
  lemma TablesSnoc(depends: map<string, seq<string>>, enabler: map<string, seq<string>>,
                   names: seq<string>, edges: seq<(string, string)>, name: string, d: string)
    requires TablesMatch(depends, enabler, names, edges) && name in names && d in names
    ensures TablesMatch(depends[name := depends[name] + [d]], enabler[d := enabler[d] + [name]], names, edges + [(name, d)])
  {
    forall k | k in names
      ensures Targets(edges + [(name, d)], k) == Targets(edges, k) + (if k == name then [d] else [])
      ensures Sources(edges + [(name, d)], k) == Sources(edges, k) + (if k == d then [name] else [])
    {
      TargetsSnoc(edges, (name, d), k);
    }
  }

  /** Lines 111-116 for one record: an edge for each property whose `$ref` names a record-like def. */
  method AddRecordEdges(name: string, props: seq<(string, Node)>, names: seq<string>,
                        depends0: map<string, seq<string>>, enabler0: map<string, seq<string>>,
                        ghost before: seq<(string, string)>)
    returns (depends: map<string, seq<string>>, enabler: map<string, seq<string>>)
    requires name in names
    requires TablesMatch(depends0, enabler0, names, before)
    ensures TablesMatch(depends, enabler, names, before + Pairs(name, DirectDeps(props, names)))
  {
    depends, enabler := depends0, enabler0;
    assert before + Pairs(name, DirectDeps(props[..0], names)) == before;
    for j := 0 to |props|
      invariant TablesMatch(depends, enabler, names, before + Pairs(name, DirectDeps(props[..j], names)))
    {
      DirectDepsStep(props, j, names);
      var prop := props[j].1;
      if prop.ref.None? || LastSegment(prop.ref.value, '/') !in names {
        assert DirectDeps(props[..j + 1], names) == DirectDeps(props[..j], names) + [];
        assert DirectDeps(props[..j], names) + [] == DirectDeps(props[..j], names);
        continue;
      }
      var dependName := LastSegment(prop.ref.value, '/');
      ghost var edges := before + Pairs(name, DirectDeps(props[..j], names));
      assert DirectDeps(props[..j + 1], names) == DirectDeps(props[..j], names) + [dependName];
      PairsSnoc(name, DirectDeps(props[..j], names), dependName);
      assert before + Pairs(name, DirectDeps(props[..j + 1], names)) == edges + [(name, dependName)];
      TablesSnoc(depends, enabler, names, edges, name, dependName);
      enabler := enabler[dependName := enabler[dependName] + [name]];
      depends := depends[name := depends[name] + [dependName]];
    }
    assert props[..|props|] == props;
  }

  /**
   * Lines 105-116: `depends[m]` lists the records `m` references through a
   * direct `properties.*.$ref`, and `enabler[d]` the records referencing `d`.
   */
  method BuildDependencyTables(defs: seq<(string, Node)>)
    returns (names: seq<string>, depends: map<string, seq<string>>, enabler: map<string, seq<string>>)
    ensures names == RecordNames(defs)
    ensures TablesMatch(depends, enabler, names, Graph(defs))
  {
    var records := RecordDefs(defs);
    names := Keys(records);
    depends := map k | k in names :: [];
    enabler := map k | k in names :: [];
    TablesEmpty(names);
    for i := 0 to |records|
      invariant TablesMatch(depends, enabler, names, EdgesOf(records[..i], names))
    {
      var (name, definition) := records[i];
      assert name == names[i];
      EdgesOfStep(records, i, names);
      depends, enabler := AddRecordEdges(name, EntriesOf(definition.properties), names, depends, enabler,
                                         EdgesOf(records[..i], names));
    }
    assert records[..|records|] == records;
  }

  /** Empty lists for every name match the graph without edges. */
  lemma TablesEmpty(names: seq<string>)
    ensures TablesMatch(map k | k in names :: [], map k | k in names :: [], names, [])
  {
    forall k | k in names ensures Targets([], k) == [] && Sources([], k) == [] {
      TargetsSpec([], k, []);
    }
  }

  /** A finite set drawn from a sequence is no larger than the sequence. */
  lemma {:induction false} SetFromSeqBound(s: set<string>, xs: seq<string>)
    requires forall x :: x in s ==> x in xs
    ensures |s| <= |xs|
    decreases |xs|
  {
    if xs != [] {
      var last := xs[|xs| - 1];
      forall x | x in s - {last} ensures x in xs[..|xs| - 1] {
        var i :| 0 <= i < |xs| && xs[i] == x;
      }
      SetFromSeqBound(s - {last}, xs[..|xs| - 1]);
    }
  }

  /** A path that returns to one of its own nodes contains a cycle. */
  lemma CycleFromPath(edges: seq<(string, string)>, p: seq<string>, k: nat)
    requires IsPath(edges, p) && k < |p| - 1 && p[k] == p[|p| - 1]
    ensures !Acyclic(edges)
  {
    var q := p[k..];
    assert IsPath(edges, q);
    assert |q| >= 2 && q[0] == q[|q| - 1];
  }

  /**
   * The tables left to process: `depends[m]` holds, with multiplicity, the
   * dependencies of `m` not yet emitted.
   */
  ghost predicate PendingDeps(depends: map<string, seq<string>>, edges: seq<(string, string)>,
                              names0: seq<string>, emitted: seq<string>)
  {
    (forall m :: m in depends <==> m in names0) &&
    forall m, x :: m in depends ==>
      multiset(depends[m])[x] == if x in emitted then 0 else multiset(Targets(edges, m))[x]
  }

  /** After the first `j` enablers of `c` were processed, each of them has dropped one `c`. */
  ghost predicate ReleasedUpTo(r: map<string, seq<string>>, depends: map<string, seq<string>>,
                               models: seq<string>, j: nat, c: string)
    requires j <= |models|
  {
    r.Keys == depends.Keys &&
    forall m, x :: m in depends ==>
      multiset(r[m])[x] + (if x == c then multiset(models[..j])[m] else 0) == multiset(depends[m])[x]
  }

  /** Enablers are listed as often as they depend on `c`: one more removal finds `c` and keeps the count. */
  lemma ReleaseStep(r: map<string, seq<string>>, depends: map<string, seq<string>>,
                    models: seq<string>, j: nat, c: string)
    requires j < |models| && models[j] in depends
    requires forall m :: m in depends ==> multiset(models)[m] == multiset(depends[m])[c]
    requires ReleasedUpTo(r, depends, models, j, c)
    ensures c in r[models[j]]
    ensures ReleasedUpTo(r[models[j] := RemoveFirst(r[models[j]], c)], depends, models, j + 1, c)
  {
    var m := models[j];
    assert multiset(models[..j + 1]) == multiset(models[..j]) + multiset{m} by {
      assert models[..j + 1] == models[..j] + [m];
    }
    assert c in r[m] by {
      assert multiset(models[..j + 1])[m] <= multiset(models)[m] by {
        assert models == models[..j + 1] + models[j + 1..];
      }
      assert multiset(r[m])[c] + multiset(models[..j])[m] == multiset(depends[m])[c];
    }
    ReleasedAfter(r, depends, models, j, c);
  }

  /** Removing one `c` from the `j`-th enabler's dependencies extends the released prefix by one. */
  lemma ReleasedAfter(r: map<string, seq<string>>, depends: map<string, seq<string>>,
                      models: seq<string>, j: nat, c: string)
    requires j < |models| && models[j] in depends
    requires ReleasedUpTo(r, depends, models, j, c) && c in r[models[j]]
    requires multiset(models[..j + 1]) == multiset(models[..j]) + multiset{models[j]}
    ensures ReleasedUpTo(r[models[j] := RemoveFirst(r[models[j]], c)], depends, models, j + 1, c)
  {
    var r' := r[models[j] := RemoveFirst(r[models[j]], c)];
    forall k, x | k in depends
      ensures multiset(r'[k])[x] + (if x == c then multiset(models[..j + 1])[k] else 0) == multiset(depends[k])[x]
    {
      ReleaseStepAt(r, depends, models, j, c, k, x);
    }
    assert r'.Keys == depends.Keys;
  }

  /** One record's count after the removal at position `j`. */
  lemma ReleaseStepAt(r: map<string, seq<string>>, depends: map<string, seq<string>>,
                      models: seq<string>, j: nat, c: string, k: string, x: string)
    requires j < |models| && models[j] in depends && k in depends
    requires ReleasedUpTo(r, depends, models, j, c) && c in r[models[j]]
    requires multiset(models[..j + 1]) == multiset(models[..j]) + multiset{models[j]}
    ensures multiset(r[models[j] := RemoveFirst(r[models[j]], c)][k])[x] +
      (if x == c then multiset(models[..j + 1])[k] else 0) == multiset(depends[k])[x]
  {
    var m := models[j];
    assert multiset(r[k])[x] + (if x == c then multiset(models[..j])[k] else 0) == multiset(depends[k])[x];
    if k == m {
      assert multiset(RemoveFirst(r[m], c)) == multiset(r[m]) - multiset{c};
    }
  }

  /**
   * Lines 131-132: after `c` is emitted, each record listed in `models`
   * (the enablers of `c`) drops one occurrence of `c` from its dependencies.
   */
  method ReleaseDependents(depends: map<string, seq<string>>, models: seq<string>, c: string)
    returns (r: map<string, seq<string>>)
    requires forall m :: m in models ==> m in depends
    requires forall m :: m in depends ==> multiset(models)[m] == multiset(depends[m])[c]
    ensures r.Keys == depends.Keys
    ensures forall m, x :: m in depends ==> multiset(r[m])[x] == if x == c then 0 else multiset(depends[m])[x]
  {
    r := depends;
    for j := 0 to |models|
      invariant ReleasedUpTo(r, depends, models, j, c)
    {
      ReleaseStep(r, depends, models, j, c);
      r := r[models[j] := RemoveFirst(r[models[j]], c)];
    }
    assert models[..|models|] == models;
  }

  /** Record names are distinct and every edge joins two of them. */
  ghost predicate GraphFacts(edges: seq<(string, string)>, names0: seq<string>) {
    (forall x :: multiset(names0)[x] <= 1) &&
    (forall e :: e in edges ==> e.0 in names0 && e.1 in names0)
  }

  /** Both ends of a dependency are record names. */
  lemma TargetInNames(edges: seq<(string, string)>, names0: seq<string>, m: string, x: string)
    requires GraphFacts(edges, names0) && x in Targets(edges, m)
    ensures m in names0 && x in names0
  {
    TargetsSpec(edges, m, x);
  }

  /** The waiting names, the current model and the emitted models are a partition of the record names. */
  ghost predicate Parts(names0: seq<string>, names: seq<string>, curr: string, submodels: seq<string>) {
    multiset(names) + multiset{curr} + multiset(submodels) == multiset(names0)
  }

  /** `enabler[d]` is untouched for every record not emitted yet. */
  ghost predicate EnablersFresh(enabler: map<string, seq<string>>, edges: seq<(string, string)>,
                                names0: seq<string>, submodels: seq<string>)
  {
    (forall k :: k in enabler <==> k in names0) &&
    (forall d :: d in names0 && d !in submodels ==> enabler[d] == Sources(edges, d))
  }

  /** `seen` holds the models passed on the current walk down the dependencies, which ends at `curr`. */
  ghost predicate Walk(edges: seq<(string, string)>, names: seq<string>, curr: string,
                       seen: set<string>, path: seq<string>)
  {
    (forall x :: x in seen ==> x in names) && |seen| <= |names| && curr !in seen &&
    |path| >= 1 && path[|path| - 1] == curr && IsPath(edges, path) &&
    (forall x :: x in seen <==> x in path[..|path| - 1])
  }

  /** What holds at the top of each round of the `while` loop of lines 120-140. */
  ghost predicate SortInv(edges: seq<(string, string)>, names0: seq<string>,
                          names: seq<string>, curr: string,
                          depends: map<string, seq<string>>, enabler: map<string, seq<string>>,
                          submodels: seq<string>, seen: set<string>, path: seq<string>)
  {
    GraphFacts(edges, names0) &&
    Parts(names0, names, curr, submodels) &&
    PendingDeps(depends, edges, names0, submodels) &&
    EnablersFresh(enabler, edges, names0, submodels) &&
    RespectsDeps(submodels, edges) &&
    Walk(edges, names, curr, seen, path)
  }

  /** The current model, the names still waiting and the emitted models are disjoint parts of the record names. */
  lemma SortInvParts(edges: seq<(string, string)>, names0: seq<string>, names: seq<string>, curr: string,
                     depends: map<string, seq<string>>, enabler: map<string, seq<string>>,
                     submodels: seq<string>, seen: set<string>, path: seq<string>)
    requires SortInv(edges, names0, names, curr, depends, enabler, submodels, seen, path)
    ensures curr in names0 && curr in depends && curr !in names && curr !in submodels
    ensures forall x :: x in names0 && x !in submodels ==> x == curr || x in names
    ensures forall x :: x in submodels ==> x !in names && multiset(submodels)[x] == 1
  {
    assert multiset(names0)[curr] >= 1;
    assert multiset(names0)[curr] <= 1;
    assert multiset(names)[curr] == 0 && multiset(submodels)[curr] == 0;
    assert PendingDeps(depends, edges, names0, submodels);
    forall x | x in names0 && x !in submodels ensures x == curr || x in names {
      assert multiset(names0)[x] >= 1;
    }
    forall x | x in submodels ensures x !in names && multiset(submodels)[x] == 1 {
      assert multiset(names0)[x] <= 1;
    }
  }

  /** A pending dependency is not emitted yet and is a target of the model's edges. */
  lemma PendingPick(depends: map<string, seq<string>>, edges: seq<(string, string)>,
                    names0: seq<string>, emitted: seq<string>, m: string, x: string)
    requires PendingDeps(depends, edges, names0, emitted) && m in depends && x in depends[m]
    ensures x !in emitted && x in Targets(edges, m)
  {
    assert multiset(depends[m])[x] > 0;
    assert multiset(depends[m])[x] == if x in emitted then 0 else multiset(Targets(edges, m))[x];
    assert multiset(Targets(edges, m))[x] > 0;
  }

  /** Putting the current model back and taking out one not yet emitted keeps the three parts a partition. */
  lemma PartitionSwap(names0: seq<string>, names: seq<string>, curr: string, submodels: seq<string>, d: string)
    requires multiset(names) + multiset{curr} + multiset(submodels) == multiset(names0)
    requires d in names0 && d !in submodels
    ensures d in names + [curr]
    ensures multiset(RemoveFirst(names + [curr], d)) + multiset{d} + multiset(submodels) == multiset(names0)
  {
    assert multiset(names0)[d] >= 1;
    assert multiset(names + [curr]) == multiset(names) + multiset{curr};
    assert multiset(names + [curr])[d] >= 1;
  }

  lemma PathSnoc(edges: seq<(string, string)>, path: seq<string>, d: string)
    requires |path| >= 1 && IsPath(edges, path) && d in Targets(edges, path[|path| - 1])
    ensures IsPath(edges, path + [d])
  {
    var p := path + [d];
    forall i | 0 <= i < |p| - 1 ensures p[i + 1] in Targets(edges, p[i]) {
      if i < |path| - 1 {
        assert p[i] == path[i] && p[i + 1] == path[i + 1];
      }
    }
  }

  /** The walk so far: the models in `seen` and then the current one. */
  lemma SeenIsPath(seen: set<string>, path: seq<string>, curr: string)
    requires |path| >= 1 && path[|path| - 1] == curr
    requires forall x :: x in seen <==> x in path[..|path| - 1]
    ensures forall x :: x in seen + {curr} <==> x in path
  {
    assert path == path[..|path| - 1] + [curr];
  }

  /** One step down the walk: the previous current model joins `seen`, which stays inside the waiting names. */
  lemma SeenStep(names: seq<string>, curr: string, seen: set<string>, d: string)
    requires forall x :: x in seen ==> x in names
    requires curr !in seen && d in names + [curr] && d !in seen + {curr}
    ensures forall x :: x in seen + {curr} ==> x in RemoveFirst(names + [curr], d)
    ensures |seen + {curr}| <= |RemoveFirst(names + [curr], d)| && |seen + {curr}| == |seen| + 1
  {
    var waiting := names + [curr];
    var rest := RemoveFirst(waiting, d);
    assert multiset(waiting) == multiset(names) + multiset{curr};
    forall x | x in seen + {curr} ensures x in rest {
      assert multiset(waiting)[x] >= 1 && x != d;
      assert multiset(rest)[x] >= 1;
    }
    SetFromSeqBound(seen + {curr}, rest);
  }

  /**
   * Lines 121-127: the current model still has a pending dependency, so it
   * goes back to the waiting names and the walk descends to its first
   * pending dependency; reaching a model already on the walk is a cycle.
   */
  method Descend(ghost edges: seq<(string, string)>, ghost names0: seq<string>,
                 names: seq<string>, curr: string, depends: map<string, seq<string>>,
                 ghost enabler: map<string, seq<string>>, ghost submodels: seq<string>,
                 seen: set<string>, ghost path: seq<string>)
    returns (names': seq<string>, curr': string, seen': set<string>, ghost path': seq<string>, cycle: bool)
    requires SortInv(edges, names0, names, curr, depends, enabler, submodels, seen, path)
    requires curr in depends && depends[curr] != []
    ensures cycle ==> !Acyclic(edges)
    ensures !cycle ==> SortInv(edges, names0, names', curr', depends, enabler, submodels, seen', path')
    ensures !cycle ==> |names'| == |names| && |seen'| == |seen| + 1
  {
    SortInvParts(edges, names0, names, curr, depends, enabler, submodels, seen, path);
    var waiting := names + [curr];
    seen' := seen + {curr};
    var dependName := depends[curr][0];
    PendingPick(depends, edges, names0, submodels, curr, dependName);
    TargetInNames(edges, names0, curr, dependName);
    PartitionSwap(names0, names, curr, submodels, dependName);
    names' := RemoveFirst(waiting, dependName);
    curr' := dependName;
    path' := path + [curr'];
    cycle := curr' in seen';
    if cycle {
      WalkCycle(edges, names, curr, seen, path, dependName);
      return;
    }
    WalkStep(edges, names, curr, seen, path, dependName);
  }

  /** Stepping to a dependency already on the walk closes a cycle. */
  lemma WalkCycle(edges: seq<(string, string)>, names: seq<string>, curr: string,
                  seen: set<string>, path: seq<string>, d: string)
    requires Walk(edges, names, curr, seen, path)
    requires d in Targets(edges, curr) && d in seen + {curr}
    ensures !Acyclic(edges)
  {
    var path' := path + [d];
    PathSnoc(edges, path, d);
    SeenIsPath(seen, path, curr);
    var k :| 0 <= k < |path| && path[k] == d;
    assert path'[k] == path[k];
    CycleFromPath(edges, path', k);
  }

  /** Stepping to a dependency not yet on the walk extends it by one model. */
  lemma WalkStep(edges: seq<(string, string)>, names: seq<string>, curr: string,
                 seen: set<string>, path: seq<string>, d: string)
    requires Walk(edges, names, curr, seen, path)
    requires d in Targets(edges, curr) && d in names + [curr] && d !in seen + {curr}
    ensures Walk(edges, RemoveFirst(names + [curr], d), d, seen + {curr}, path + [d])
    ensures |RemoveFirst(names + [curr], d)| == |names| && |seen + {curr}| == |seen| + 1
  {
    SeenStep(names, curr, seen, d);
    PathSnoc(edges, path, d);
    SeenIsPath(seen, path, curr);
    assert (path + [d])[..|path|] == path;
  }

  /** A model whose dependencies have all been emitted can be emitted next. */
  lemma RespectsSnoc(order: seq<string>, edges: seq<(string, string)>, c: string)
    requires RespectsDeps(order, edges)
    requires forall d :: d in Targets(edges, c) ==> d in order
    ensures RespectsDeps(order + [c], edges)
  {
    var o := order + [c];
    forall i, d | 0 <= i < |o| && d in Targets(edges, o[i]) ensures d in o[..i] {
      if i < |order| {
        assert o[..i] == order[..i];
      } else {
        assert o[..i] == order;
      }
    }
  }

  /** No pending dependency left means every dependency of the model is emitted. */
  lemma NothingPending(depends: map<string, seq<string>>, edges: seq<(string, string)>,
                       names0: seq<string>, emitted: seq<string>, c: string)
    requires PendingDeps(depends, edges, names0, emitted) && c in depends && depends[c] == []
    ensures forall d :: d in Targets(edges, c) ==> d in emitted
  {
    forall d | d in Targets(edges, c) ensures d in emitted {
      assert multiset(Targets(edges, c))[d] > 0;
      assert multiset(depends[c])[d] == if d in emitted then 0 else multiset(Targets(edges, c))[d];
    }
  }

  /** The enablers of `c` list each model as often as it still depends on `c`. */
  lemma ReleaseReady(depends: map<string, seq<string>>, enabler: map<string, seq<string>>,
                     edges: seq<(string, string)>, names0: seq<string>, emitted: seq<string>, c: string)
    requires GraphFacts(edges, names0) && PendingDeps(depends, edges, names0, emitted)
    requires EnablersFresh(enabler, edges, names0, emitted)
    requires c in names0 && c !in emitted
    ensures c in enabler
    ensures forall m :: m in enabler[c] ==> m in depends
    ensures forall m :: m in depends ==> multiset(enabler[c])[m] == multiset(depends[m])[c]
  {
    forall m | m in enabler[c] ensures m in depends {
      SourceInNames(edges, names0, c, m);
    }
    forall m | m in depends ensures multiset(enabler[c])[m] == multiset(depends[m])[c] {
      SourcesTargetsCount(edges, c, m);
      assert multiset(depends[m])[c] == if c in emitted then 0 else multiset(Targets(edges, m))[c];
    }
  }

  /** Releasing `c` from every enabler leaves pending exactly the dependencies not emitted once `c` is. */
  lemma PendingAfterRelease(depends: map<string, seq<string>>, released: map<string, seq<string>>,
                            edges: seq<(string, string)>, names0: seq<string>, emitted: seq<string>, c: string)
    requires PendingDeps(depends, edges, names0, emitted)
    requires released.Keys == depends.Keys
    requires forall m, x :: m in depends ==> multiset(released[m])[x] == if x == c then 0 else multiset(depends[m])[x]
    ensures PendingDeps(released, edges, names0, emitted + [c])
  {
    forall m, x | m in released
      ensures multiset(released[m])[x] == if x in emitted + [c] then 0 else multiset(Targets(edges, m))[x]
    {
      assert multiset(released[m])[x] == if x == c then 0 else multiset(depends[m])[x];
      assert multiset(depends[m])[x] == if x in emitted then 0 else multiset(Targets(edges, m))[x];
    }
  }

  lemma SourceInNames(edges: seq<(string, string)>, names0: seq<string>, c: string, m: string)
    requires GraphFacts(edges, names0) && m in Sources(edges, c)
    ensures m in names0
  {
    TargetsSpec(edges, c, m);
  }

  /** The last enabler of the model just emitted is not emitted yet: it depends on that model. */
  lemma EnablerWaiting(edges: seq<(string, string)>, names0: seq<string>, emitted: seq<string>, c: string, next: string)
    requires GraphFacts(edges, names0) && RespectsDeps(emitted + [c], edges)
    requires multiset(emitted + [c])[c] == 1
    requires next in Sources(edges, c)
    ensures next in names0 && next !in emitted + [c]
  {
    var o := emitted + [c];
    SourceInNames(edges, names0, c, next);
    TargetsSpec(edges, next, c);
    TargetsSpec(edges, c, next);
    assert c in Targets(edges, next);
    assert c !in emitted by {
      assert multiset(o) == multiset(emitted) + multiset{c};
    }
    forall i | 0 <= i < |o| ensures o[i] != next {
      assert o[..i] == emitted[..i];
      assert c !in o[..i];
      assert c !in Targets(edges, o[i]);
    }
  }

  /** The last enabler of the model just emitted is one of the waiting names. */
  lemma NextWaiting(edges: seq<(string, string)>, names0: seq<string>, names: seq<string>, curr: string,
                    submodels: seq<string>, next: string)
    requires GraphFacts(edges, names0) && Parts(names0, names, curr, submodels)
    requires RespectsDeps(submodels + [curr], edges) && multiset(submodels + [curr])[curr] == 1
    requires next in Sources(edges, curr)
    ensures next in names
  {
    EnablerWaiting(edges, names0, submodels, curr, next);
    assert multiset(names0)[next] >= 1;
    assert multiset(names0) == multiset(names) + multiset(submodels + [curr]);
  }

  lemma PartsEmit(names0: seq<string>, names: seq<string>, curr: string, submodels: seq<string>, next: string)
    requires Parts(names0, names, curr, submodels) && next in names
    ensures Parts(names0, RemoveFirst(names, next), next, submodels + [curr])
  {
  }

  lemma PartsPop(names0: seq<string>, names: seq<string>, curr: string, submodels: seq<string>)
    requires Parts(names0, names, curr, submodels) && names != []
    ensures Parts(names0, names[..|names| - 1], names[|names| - 1], submodels + [curr])
  {
    assert names == names[..|names| - 1] + [names[|names| - 1]];
  }

  lemma FreshWalk(edges: seq<(string, string)>, names: seq<string>, curr: string)
    ensures Walk(edges, names, curr, {}, [curr])
  {
    assert IsPath(edges, [curr]);
  }

  /**
   * Lines 128-140: the current model has no pending dependency, so it is
   * emitted and released from its enablers' dependencies, and the sort goes
   * on from the next model, if any.
   */
  method Emit(ghost edges: seq<(string, string)>, ghost names0: seq<string>,
              names: seq<string>, curr: string,
              depends: map<string, seq<string>>, enabler: map<string, seq<string>>,
              submodels: seq<string>, ghost seen: set<string>, ghost path: seq<string>)
    returns (names': seq<string>, curr': string, depends': map<string, seq<string>>,
             enabler': map<string, seq<string>>, submodels': seq<string>, done: bool)
    requires SortInv(edges, names0, names, curr, depends, enabler, submodels, seen, path)
    requires curr in depends && depends[curr] == []
    ensures submodels' == submodels + [curr]
    ensures done ==> multiset(submodels') == multiset(names0) && RespectsDeps(submodels', edges)
    ensures !done ==> SortInv(edges, names0, names', curr', depends', enabler', submodels', {}, [curr'])
    ensures !done ==> |names'| < |names|
  {
    SortInvParts(edges, names0, names, curr, depends, enabler, submodels, seen, path);
    submodels' := submodels + [curr];
    assert RespectsDeps(submodels', edges) by {
      NothingPending(depends, edges, names0, submodels, curr);
      RespectsSnoc(submodels, edges, curr);
    }
    var dependents := enabler[curr];
    assert (forall m :: m in dependents ==> m in depends) &&
           (forall m :: m in depends ==> multiset(dependents)[m] == multiset(depends[m])[curr]) by {
      ReleaseReady(depends, enabler, edges, names0, submodels, curr);
    }
    depends' := ReleaseDependents(depends, dependents, curr);
    assert PendingDeps(depends', edges, names0, submodels') by {
      PendingAfterRelease(depends, depends', edges, names0, submodels, curr);
    }
    assert multiset(submodels')[curr] == 1 by {
      assert multiset(submodels') == multiset(submodels) + multiset{curr};
    }
    names', curr', enabler', done := NextModel(edges, names0, names, curr, enabler, submodels);
    if !done {
      EmitInv(edges, names0, names', curr', depends', enabler', submodels');
    }
  }

  /**
   * Lines 134-140: the next model is the last enabler of the model just
   * emitted, popped from its enabler list, else the last waiting name; with
   * neither, the sort ends with every record emitted.
   */
  method NextModel(ghost edges: seq<(string, string)>, ghost names0: seq<string>,
                   names: seq<string>, curr: string, enabler: map<string, seq<string>>, ghost submodels: seq<string>)
    returns (names': seq<string>, curr': string, enabler': map<string, seq<string>>, done: bool)
    requires GraphFacts(edges, names0) && Parts(names0, names, curr, submodels)
    requires RespectsDeps(submodels + [curr], edges) && multiset(submodels + [curr])[curr] == 1
    requires EnablersFresh(enabler, edges, names0, submodels) && curr in names0 && curr !in submodels
    ensures done <==> enabler[curr] == [] && names == []
    ensures done ==> multiset(submodels + [curr]) == multiset(names0)
    ensures !done ==> Parts(names0, names', curr', submodels + [curr])
    ensures !done ==> EnablersFresh(enabler', edges, names0, submodels + [curr])
    ensures !done ==> |names'| < |names|
  {
    var dependents := enabler[curr];
    if dependents != [] {
      var next := dependents[|dependents| - 1];
      assert next in Sources(edges, curr);
      NextWaiting(edges, names0, names, curr, submodels, next);
      enabler' := enabler[curr := dependents[..|dependents| - 1]];
      curr' := next;
      names' := RemoveFirst(names, curr');
      PartsEmit(names0, names, curr, submodels, next);
      EnablersAfterEmit(enabler, edges, names0, submodels, curr, dependents[..|dependents| - 1]);
      done := false;
    } else if names != [] {
      curr' := names[|names| - 1];
      names' := names[..|names| - 1];
      enabler' := enabler;
      PartsPop(names0, names, curr, submodels);
      EnablersAfterEmit(enabler, edges, names0, submodels, curr, enabler[curr]);
      assert enabler[curr := enabler[curr]] == enabler;
      done := false;
    } else {
      names', curr', enabler', done := names, curr, enabler, true;
    }
  }

  /** The state the sort restarts from after an emission: a fresh walk at the next model. */
  lemma EmitInv(edges: seq<(string, string)>, names0: seq<string>, names: seq<string>, curr: string,
                depends: map<string, seq<string>>, enabler: map<string, seq<string>>, submodels: seq<string>)
    requires GraphFacts(edges, names0) && Parts(names0, names, curr, submodels)
    requires PendingDeps(depends, edges, names0, submodels) && EnablersFresh(enabler, edges, names0, submodels)
    requires RespectsDeps(submodels, edges)
    ensures SortInv(edges, names0, names, curr, depends, enabler, submodels, {}, [curr])
  {
    FreshWalk(edges, names, curr);
  }

  /** Emitting `curr` and shortening its enabler list keeps every other record's enablers untouched. */
  lemma EnablersAfterEmit(enabler: map<string, seq<string>>, edges: seq<(string, string)>,
                          names0: seq<string>, submodels: seq<string>, curr: string, rest: seq<string>)
    requires EnablersFresh(enabler, edges, names0, submodels) && curr in enabler
    ensures EnablersFresh(enabler[curr := rest], edges, names0, submodels + [curr])
  {
  }

  /** The state after the first `pop()`: nothing emitted, the walk at the last record name. */
  lemma SortStart(defs: seq<(string, Node)>, names0: seq<string>,
                  depends: map<string, seq<string>>, enabler: map<string, seq<string>>)
    requires UniqueKeys(defs) && names0 == RecordNames(defs) && names0 != []
    requires TablesMatch(depends, enabler, names0, Graph(defs))
    ensures SortInv(Graph(defs), names0, names0[..|names0| - 1], names0[|names0| - 1], depends, enabler, [], {}, [names0[|names0| - 1]])
  {
    var edges := Graph(defs);
    var curr := names0[|names0| - 1];
    var names := names0[..|names0| - 1];
    GraphFactsOf(defs);
    assert names0 == names + [curr];
    var none: seq<string> := [];
    assert multiset(names) + multiset{curr} + multiset(none) == multiset(names0);
    assert forall d :: d in names0 ==> enabler[d] == Sources(edges, d);
    assert PendingDeps(depends, edges, names0, []) by {
      forall m, x | m in depends
        ensures multiset(depends[m])[x] == if x in [] then 0 else multiset(Targets(edges, m))[x]
      {
        assert depends[m] == Targets(edges, m);
      }
    }
    FreshWalk(edges, names, curr);
    assert GraphFacts(edges, names0);
    assert Parts(names0, names, curr, none);
    assert EnablersFresh(enabler, edges, names0, none);
    assert RespectsDeps(none, edges);
  }

  /**
   * `_get_sorted_submodels`, with the cycle check raising the error that
   * line 127 builds. With no record-like defs the first `pop()` fails; with
   * a dependency cycle the result is `CircularDependency`; otherwise every
   * record-like def is emitted exactly once, after each def it references
   * directly.
   */
  method SortSubmodels(defs: seq<(string, Node)>) returns (r: Result<seq<string>, SchemaError>)
    requires UniqueKeys(defs)
    ensures r == Err(PopFromEmptyList) <==> RecordNames(defs) == []
    ensures r.Ok? ==> multiset(r.value) == multiset(RecordNames(defs)) && RespectsDeps(r.value, Graph(defs))
    ensures r.Err? && RecordNames(defs) != [] ==> r.error == CircularDependency && !Acyclic(Graph(defs))
  {
    ghost var edges := Graph(defs);
    var names, depends, enabler := BuildDependencyTables(defs);
    ghost var names0 := names;
    var submodels: seq<string> := [];
    if names == [] {
      return Err(PopFromEmptyList);
    }
    var curr := names[|names| - 1];
    names := names[..|names| - 1];
    var seen: set<string> := {};
    ghost var path := [curr];
    SortStart(defs, names0, depends, enabler);
    while true
      invariant SortInv(edges, names0, names, curr, depends, enabler, submodels, seen, path)
      decreases |names|, |names| - |seen|
    {
      SortInvParts(edges, names0, names, curr, depends, enabler, submodels, seen, path);
      if depends[curr] != [] {
        var cycle;
        names, curr, seen, path, cycle := Descend(edges, names0, names, curr, depends, enabler, submodels, seen, path);
        if cycle {
          return Err(CircularDependency);
        }
      } else {
        ghost var walked := seen;
        seen := {};
        var done;
        names, curr, depends, enabler, submodels, done := Emit(edges, names0, names, curr, depends, enabler, submodels, walked, path);
        if done {
          return Ok(submodels);
        }
        path := [curr];
      }
    }
  }

  /** Python's `s.index(x)`: the first position of `x`. */
  function IndexOf(s: seq<string>, x: string): (i: nat)
    requires x in s
    ensures i < |s| && s[i] == x && x !in s[..i]
  {
    if s[0] == x then 0
    else
      var j := IndexOf(s[1..], x);
      assert s[..j + 1] == [s[0]] + s[1..][..j];
      j + 1
  }

  /** In an order that respects the dependencies, a dependency first appears before its dependent. */
  lemma EdgeLowersIndex(order: seq<string>, edges: seq<(string, string)>, m: string, d: string)
    requires RespectsDeps(order, edges) && m in order && d in Targets(edges, m)
    ensures d in order && IndexOf(order, d) < IndexOf(order, m)
  {
    var i := IndexOf(order, m);
    assert d in order[..i];
    var j :| 0 <= j < i && order[..i][j] == d;
    assert order[j] == d;
  }

  /** Along a path of dependencies, first positions strictly decrease. */
  lemma {:induction false} PathLowersIndex(order: seq<string>, edges: seq<(string, string)>, p: seq<string>, k: nat)
    requires RespectsDeps(order, edges) && IsPath(edges, p)
    requires forall m, x :: x in Targets(edges, m) ==> m in order
    requires 1 <= k < |p|
    ensures p[0] in order && p[k] in order && IndexOf(order, p[k]) < IndexOf(order, p[0])
    decreases k
  {
    assert p[1] in Targets(edges, p[0]);
    if k == 1 {
      EdgeLowersIndex(order, edges, p[0], p[1]);
    } else {
      PathLowersIndex(order, edges, p, k - 1);
      assert p[k] in Targets(edges, p[k - 1]);
      EdgeLowersIndex(order, edges, p[k - 1], p[k]);
    }
  }

  /** A graph whose records can be listed so that each follows its dependencies has no cycle. */
  lemma TopoImpliesAcyclic(order: seq<string>, edges: seq<(string, string)>)
    requires RespectsDeps(order, edges)
    requires forall m, x :: x in Targets(edges, m) ==> m in order
    ensures Acyclic(edges)
  {
    forall p | IsPath(edges, p) && |p| >= 2 ensures p[0] != p[|p| - 1] {
      PathLowersIndex(order, edges, p, |p| - 1);
    }
  }

  /**
   * The order a schema's record-like defs are built in: none when there are
   * none, otherwise the result of `_get_sorted_submodels`. A result is
   * produced exactly when the references between the defs have no cycle.
   */
  method OrderedSubmodels(defs: seq<(string, Node)>) returns (r: Result<seq<string>, SchemaError>)
    requires UniqueKeys(defs)
    ensures r.Ok? <==> Acyclic(Graph(defs))
    ensures r.Ok? ==> multiset(r.value) == multiset(RecordNames(defs)) && RespectsDeps(r.value, Graph(defs))
    ensures r.Err? ==> r.error == CircularDependency
  {
    if RecordNames(defs) == [] {
      GraphInNames(defs);
      TopoImpliesAcyclic([], Graph(defs));
      return Ok([]);
    }
    r := SortSubmodels(defs);
    if r.Ok? {
      SortedIsAcyclic(defs, r.value);
    }
  }

  /** A dependency-respecting order of all the record-like defs exists only when their references have no cycle. */
  lemma SortedIsAcyclic(defs: seq<(string, Node)>, order: seq<string>)
    requires multiset(order) == multiset(RecordNames(defs)) && RespectsDeps(order, Graph(defs))
    ensures Acyclic(Graph(defs))
  {
    GraphInNames(defs);
    forall m, x | x in Targets(Graph(defs), m) ensures m in order {
      assert multiset(RecordNames(defs))[m] > 0;
    }
    TopoImpliesAcyclic(order, Graph(defs));
  }

  /**
   * Lines 121-127 as written: the current model goes back to the waiting
   * names, the walk moves to its first pending dependency, and the
   * "Circular dependency" error is built but never raised, so nothing stops
   * the walk. The waiting names keep their length.
   */
  function DescendAsWritten(names: seq<string>, curr: string, depends: map<string, seq<string>>, seen: set<string>)
    : (r: (seq<string>, string, set<string>))
    requires curr in depends && depends[curr] != [] && depends[curr][0] in names + [curr]
    ensures |r.0| == |names| && r.1 in depends[curr] && curr in r.2
  {
    var d := depends[curr][0];
    (RemoveFirst(names + [curr], d), d, seen + {curr})
  }

  /** One record-like def `A` with a property whose `$ref` is `#/$defs/A`. */
  function SelfReferencingDefs(): seq<(string, Node)> {
    [("A", EmptyNode.(properties := Keyed([("next", EmptyNode.(ref := Some("#/$defs/A")))])))]
  }

  /**
   * For the self-referencing def, `A` depends on itself. As written, the
   * first descent leads from `A` back to `A` and from then on the state
   * (`[]`, `A`, `{A}`) is mapped to itself without touching `depends`, so the
   * test of line 121 picks the same branch forever and the sort never
   * returns; the corrected sort reports the cycle.
   */
  lemma SelfReferenceNeverEnds(depends: map<string, seq<string>>)
    requires depends == map["A" := Targets(Graph(SelfReferencingDefs()), "A")]
    ensures RecordNames(SelfReferencingDefs()) == ["A"]
    ensures depends["A"] == ["A"] && !Acyclic(Graph(SelfReferencingDefs()))
    ensures DescendAsWritten([], "A", depends, {}) == ([], "A", {"A"})
    ensures DescendAsWritten([], "A", depends, {"A"}) == ([], "A", {"A"})
  {
    SelfReferenceGraph();
    SelfLoop();
    DescendSelf(depends, {});
    DescendSelf(depends, {"A"});
  }

  /** The one edge `A -> A` makes `A` its own target and is a cycle. */
  lemma SelfLoop()
    ensures Targets([("A", "A")], "A") == ["A"] && !Acyclic([("A", "A")])
  {
    var edges: seq<(string, string)> := [("A", "A")];
    assert edges[..0] == [];
    assert Targets(edges, "A") == ["A"];
    assert IsPath(edges, ["A", "A"]);
  }

  /** With `A` its own only dependency, a descent from `A` with nothing waiting comes back to `A`. */
  lemma DescendSelf(depends: map<string, seq<string>>, seen: set<string>)
    requires "A" in depends && depends["A"] == ["A"] && seen <= {"A"}
    ensures DescendAsWritten([], "A", depends, seen) == ([], "A", {"A"})
  {
    var none: seq<string> := [];
    assert none + ["A"] == ["A"];
    assert RemoveFirst(["A"], "A") == [];
    assert seen + {"A"} == {"A"};
  }

  lemma SelfReferenceGraph()
    ensures RecordNames(SelfReferencingDefs()) == ["A"]
    ensures Graph(SelfReferencingDefs()) == [("A", "A")]
  {
    var d := SelfReferencingDefs()[0];
    assert SelfReferencingDefs() == [d] && d.0 == "A";
    SelfReferenceRecords();
    SelfReferenceDeps();
    EdgesOfSingle(d, ["A"], "A");
  }

  /** The edges of a single record with a single dependency are the one pair. */
  lemma EdgesOfSingle(d: (string, Node), names: seq<string>, dep: string)
    requires DirectDeps(EntriesOf(d.1.properties), names) == [dep]
    ensures EdgesOf([d], names) == [(d.0, dep)]
  {
    assert [d][..0] == [];
    assert Pairs(d.0, [dep]) == [(d.0, dep)];
  }

  /** The self-referencing def is record-like, so it is the one record name. */
  lemma SelfReferenceRecords()
    ensures RecordDefs(SelfReferencingDefs()) == SelfReferencingDefs()
    ensures RecordNames(SelfReferencingDefs()) == ["A"]
  {
    var d := SelfReferencingDefs()[0];
    assert SelfReferencingDefs() == [d] && d.0 == "A" && d.1.properties.Keyed?;
    RecordDefsSingle(d);
  }

  /** A single record-like def is kept, and its name is the one record name. */
  lemma RecordDefsSingle(d: (string, Node))
    requires d.1.properties.Keyed?
    ensures RecordDefs([d]) == [d]
    ensures RecordNames([d]) == [d.0]
  {
    assert [d][..0] == [];
    assert Keys([d]) == [d.0];
  }

  /** Its one property references `A` itself. */
  lemma SelfReferenceDeps()
    ensures DirectDeps(EntriesOf(SelfReferencingDefs()[0].1.properties), ["A"]) == ["A"]
  {
    var prop := EmptyNode.(ref := Some("#/$defs/A"));
    var props := [("next", prop)];
    assert EntriesOf(SelfReferencingDefs()[0].1.properties) == props;
    SelfReferenceTarget();
    assert RefTarget(prop, ["A"]) == Some("A");
    assert props[..0] == [];
    assert DirectDeps(props, ["A"]) == DirectDeps(props[..0], ["A"]) + ["A"];
  }

  lemma SelfReferenceTarget()
    ensures LastSegment("#/$defs/A", '/') == "A"
  {
    LastSegmentAfter("#/$defs", '/', "A");
    assert "#/$defs/A" == "#/$defs" + ['/'] + "A";
  }
}
