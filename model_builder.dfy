/**
 * `create_model_from_schema` and `_define_submodel_types`: the type table is
 * seeded with the primitives and the enums, every record-like `$defs` entry
 * is built in dependency order and registered under `#/$defs/<name>`, and
 * the root model is built against the full table.
 */
module ModelBuilder {
  import opened Wrappers
  import opened Values
  import opened Schema
  import opened TypeResolution
  import opened SubmodelOrder

  /**
   * `create_model(schema["title"], __doc__=schema.get("description", ""), **fields)`:
   * the title is read first, so a missing title is reported before any
   * field fails to resolve.
   */
  function BuildModel(schema: Node, table: map<string, Ty>): (r: Result<Ty, SchemaError>)
    ensures schema.title.None? ==> r == Err(MissingTitle)
    ensures r.Ok? <==> schema.title.Some? && FieldsOf(EntriesOf(schema.properties), table).Ok?
    ensures r.Ok? ==> r.value.Model? && r.value.name == schema.title.value
    ensures r.Ok? ==> r.value.doc == schema.description.GetOr("")
    ensures r.Ok? ==> r.value.fields == FieldsOf(EntriesOf(schema.properties), table).value
  {
    if schema.title.None? then Err(MissingTitle)
    else
      var fields :- FieldsOf(EntriesOf(schema.properties), table);
      Ok(Model(schema.title.value, schema.description.GetOr(""), fields))
  }

  /** The table a fresh call starts from: the eight primitives, then the enums of `$defs`. */
  function InitialTable(schema: Node): map<string, Ty> {
    BaseTable + EnumTable(EntriesOf(schema.defs))
  }

  /** An order the sort may return: each record-like def once, after the defs it references. */
  ghost predicate IsSubmodelOrder(defs: seq<(string, Node)>, order: seq<string>) {
    multiset(order) == multiset(RecordNames(defs)) && RespectsDeps(order, Graph(defs))
  }

  /** The table after registering the models of `order`, one after the other, each built against the table so far. */
  function SubmodelTable(defs: seq<(string, Node)>, order: seq<string>, table: map<string, Ty>): Result<map<string, Ty>, SchemaError>
    requires forall n {:trigger Get(defs, n)} :: n in order ==> Get(defs, n).Some?
    decreases |order|
  {
    if order == [] then Ok(table)
    else
      var t :- SubmodelTable(defs, order[..|order| - 1], table);
      var name := order[|order| - 1];
      var ty :- BuildModel(Get(defs, name).value, t);
      Ok(t[DefKey(name) := ty])
  }

  /** The root model built against the table of all submodels, registered in `order`. */
  function Synthesize(schema: Node, order: seq<string>): Result<Ty, SchemaError>
    requires forall n {:trigger Get(EntriesOf(schema.defs), n)} :: n in order ==> Get(EntriesOf(schema.defs), n).Some?
  {
    var table :- SubmodelTable(EntriesOf(schema.defs), order, InitialTable(schema));
    BuildModel(schema, table)
  }

  /** Every record name is a key of `$defs`, so `defs[submodel]` finds it. */
  lemma OrderedNamesFound(defs: seq<(string, Node)>, order: seq<string>)
    requires multiset(order) == multiset(RecordNames(defs))
    ensures forall n {:trigger Get(defs, n)} :: n in order ==> Get(defs, n).Some?
  {
    forall n | n in order ensures Get(defs, n).Some? {
      assert multiset(RecordNames(defs))[n] > 0;
      var records := RecordDefs(defs);
      var i :| 0 <= i < |records| && Keys(records)[i] == n;
      assert records[i] in defs;
      var j :| 0 <= j < |defs| && defs[j] == records[i];
      assert defs[j].0 == n;
    }
  }

  /** Once a submodel fails to build, the later ones are never reached: the first failure is the result. */
  lemma {:induction false} SubmodelTableFailureStops(defs: seq<(string, Node)>, order: seq<string>, k: nat, table: map<string, Ty>)
    requires forall n {:trigger Get(defs, n)} :: n in order ==> Get(defs, n).Some?
    requires k <= |order|
    requires forall n {:trigger Get(defs, n)} :: n in order[..k] ==> Get(defs, n).Some?
    requires SubmodelTable(defs, order[..k], table).Err?
    ensures SubmodelTable(defs, order, table) == SubmodelTable(defs, order[..k], table)
    decreases |order| - k
  {
    if k < |order| {
      assert order[..k + 1][..k] == order[..k];
      SubmodelTableFailureStops(defs, order, k + 1, table);
    } else {
      assert order[..k] == order;
    }
  }

  /** A registered prefix of the order succeeds whenever the whole order does. */
  lemma {:induction false} SubmodelTablePrefix(defs: seq<(string, Node)>, order: seq<string>, k: nat, table: map<string, Ty>)
    requires forall n {:trigger Get(defs, n)} :: n in order ==> Get(defs, n).Some?
    requires k <= |order| && SubmodelTable(defs, order, table).Ok?
    ensures forall n {:trigger Get(defs, n)} :: n in order[..k] ==> Get(defs, n).Some?
    ensures SubmodelTable(defs, order[..k], table).Ok?
  {
    assert forall n :: n in order[..k] ==> n in order;
    if SubmodelTable(defs, order[..k], table).Err? {
      SubmodelTableFailureStops(defs, order, k, table);
    }
  }

  /** A successful registration is the registration of all but the last name, plus the last name's model. */
  lemma SubmodelTableSnoc(defs: seq<(string, Node)>, order: seq<string>, table: map<string, Ty>)
    requires forall n {:trigger Get(defs, n)} :: n in order ==> Get(defs, n).Some?
    requires order != [] && SubmodelTable(defs, order, table).Ok?
    ensures forall n :: n in order[..|order| - 1] ==> Get(defs, n).Some?
    ensures SubmodelTable(defs, order[..|order| - 1], table).Ok?
    ensures BuildModel(Get(defs, order[|order| - 1]).value, SubmodelTable(defs, order[..|order| - 1], table).value).Ok?
    ensures SubmodelTable(defs, order, table).value ==
      SubmodelTable(defs, order[..|order| - 1], table).value[DefKey(order[|order| - 1]) :=
        BuildModel(Get(defs, order[|order| - 1]).value, SubmodelTable(defs, order[..|order| - 1], table).value).value]
  {
    assert forall n :: n in order[..|order| - 1] ==> n in order;
  }

  /** The keys `#/$defs/<name>` of the names in `order`. */
  function DefKeys(order: seq<string>): set<string>
    decreases |order|
  {
    if order == [] then {} else DefKeys(order[..|order| - 1]) + {DefKey(order[|order| - 1])}
  }

  /** Each name of `order` has its key among `DefKeys(order)`, and those are the only keys there. */
  lemma {:induction false} DefKeysMembers(order: seq<string>, k: string)
    ensures k in DefKeys(order) <==> exists n :: n in order && k == DefKey(n)
    decreases |order|
  {
    if order != [] {
      var init := order[..|order| - 1];
      DefKeysMembers(init, k);
      assert order == init + [order[|order| - 1]];
      if k in DefKeys(init) {
        var n :| n in init && k == DefKey(n);
        assert n in order;
      }
    }
  }

  /** Registering keeps every key of the starting table and adds `#/$defs/<name>` for each registered name. */
  lemma {:induction false} SubmodelTableKeys(defs: seq<(string, Node)>, order: seq<string>, table: map<string, Ty>)
    requires forall n {:trigger Get(defs, n)} :: n in order ==> Get(defs, n).Some?
    requires SubmodelTable(defs, order, table).Ok?
    ensures SubmodelTable(defs, order, table).value.Keys == table.Keys + DefKeys(order)
    decreases |order|
  {
    if order != [] {
      var init := order[..|order| - 1];
      SubmodelTableSnoc(defs, order, table);
      SubmodelTableKeys(defs, init, table);
    }
  }

  /**
   * With distinct names, the entry under `#/$defs/<order[i]>` is the model
   * built for `order[i]` against the table holding exactly the models
   * registered before it.
   */
  lemma {:induction false} RegisteredModel(defs: seq<(string, Node)>, order: seq<string>, table: map<string, Ty>, i: nat)
    requires forall n {:trigger Get(defs, n)} :: n in order ==> Get(defs, n).Some?
    requires forall a, b :: 0 <= a < b < |order| ==> order[a] != order[b]
    requires SubmodelTable(defs, order, table).Ok? && i < |order|
    ensures forall n {:trigger Get(defs, n)} :: n in order[..i] ==> Get(defs, n).Some?
    ensures SubmodelTable(defs, order[..i], table).Ok?
    ensures BuildModel(Get(defs, order[i]).value, SubmodelTable(defs, order[..i], table).value).Ok?
    ensures DefKey(order[i]) in SubmodelTable(defs, order, table).value
    ensures SubmodelTable(defs, order, table).value[DefKey(order[i])] ==
      BuildModel(Get(defs, order[i]).value, SubmodelTable(defs, order[..i], table).value).value
    decreases |order|
  {
    var last := |order| - 1;
    var init := order[..last];
    SubmodelTableSnoc(defs, order, table);
    if i == last {
      assert order[..i] == init;
    } else {
      var before := SubmodelTable(defs, init, table).value;
      var after := SubmodelTable(defs, order, table).value;
      assert DefKey(order[i]) != DefKey(order[last]) by {
        DefKeyInjective(order[i], order[last]);
      }
      assert init[..i] == order[..i];
      assert forall a, b :: 0 <= a < b < |init| ==> init[a] != init[b];
      RegisteredModel(defs, init, table, i);
      assert after[DefKey(order[i])] == before[DefKey(order[i])];
    }
  }

  /** In an order that respects the dependencies, every def `order[i]` references comes at an earlier position. */
  lemma EarlierDependency(order: seq<string>, edges: seq<(string, string)>, i: nat, d: string) returns (j: nat)
    requires RespectsDeps(order, edges) && i < |order| && d in Targets(edges, order[i])
    ensures j < i && order[j] == d
  {
    assert d in order[..i];
    var k :| 0 <= k < i && order[..i][k] == d;
    j := k;
  }

  /**
   * When `order[i]` is built, the table already holds the primitives, the
   * enums and a model under `#/$defs/<d>` for every record `d` it references
   * through a property's own `$ref` (an edge of the sort); a property whose
   * `$ref` is exactly `#/$defs/<d>` resolves to that model. A `$ref` nested
   * in `anyOf` or `items` is not an edge: see `NestedRefBuiltLater`.
   */
  lemma SubmodelSeesDependencies(defs: seq<(string, Node)>, order: seq<string>, table: map<string, Ty>, i: nat, d: string)
    returns (j: nat)
    requires forall n {:trigger Get(defs, n)} :: n in order ==> Get(defs, n).Some?
    requires forall a, b :: 0 <= a < b < |order| ==> order[a] != order[b]
    requires RespectsDeps(order, Graph(defs))
    requires SubmodelTable(defs, order, table).Ok? && i < |order|
    requires d in Targets(Graph(defs), order[i])
    ensures j < i && order[j] == d
    ensures forall n {:trigger Get(defs, n)} :: n in order[..i] ==> Get(defs, n).Some?
    ensures forall n {:trigger Get(defs, n)} :: n in order[..j] ==> Get(defs, n).Some?
    ensures SubmodelTable(defs, order[..i], table).Ok? && SubmodelTable(defs, order[..j], table).Ok?
    ensures forall k :: k in table ==> k in SubmodelTable(defs, order[..i], table).value
    ensures DefKey(d) in SubmodelTable(defs, order[..i], table).value
    ensures BuildModel(Get(defs, d).value, SubmodelTable(defs, order[..j], table).value).Ok?
    ensures SubmodelTable(defs, order[..i], table).value[DefKey(d)] ==
      BuildModel(Get(defs, d).value, SubmodelTable(defs, order[..j], table).value).value
    ensures forall n: Node :: n.ref == Some(DefKey(d)) ==>
      Resolve(n, SubmodelTable(defs, order[..i], table).value) ==
        Ok(SubmodelTable(defs, order[..i], table).value[DefKey(d)])
  {
    j := EarlierDependency(order, Graph(defs), i, d);
    SubmodelTablePrefix(defs, order, i, table);
    var prefix := order[..i];
    var t := SubmodelTable(defs, prefix, table).value;
    SubmodelTableKeys(defs, prefix, table);
    assert prefix[j] == d;
    DistinctPrefix(order, i);
    RegisteredModel(defs, prefix, table, j);
    PrefixOfPrefix(order, i, j);
    assert t[DefKey(d)].Model?;
    forall n: Node | n.ref == Some(DefKey(d)) ensures Resolve(n, t) == Ok(t[DefKey(d)]) {
      ResolveRef(n, t);
    }
  }

  /** `{"$ref": "#/$defs/B"}`. */
  const RefToB: Node := EmptyNode.(ref := Some(DefKey("B")))

  /** `Optional[B]` as pydantic emits it: `{"anyOf": [{"$ref": "#/$defs/B"}, {"type": "null"}]}`. */
  const OptionalB: Node := EmptyNode.(anyOf := Present([RefToB, EmptyNode.(typ := Some("null"))]))

  /** `$defs` holding a record `B` with no properties, then a record `A` whose one property `b` is `Optional[B]`. */
  const NestedRefDefs: seq<(string, Node)> := [
    ("B", EmptyNode.(title := Some("B"), properties := Keyed([]))),
    ("A", EmptyNode.(title := Some("A"), properties := Keyed([("b", OptionalB)])))]

  /**
   * Only a property's own `$ref` is an edge: `A`'s reference to `B` inside
   * `anyOf` adds none, so building `A` before `B` respects every edge, and
   * then `A.b` resolves against a table without `B` and becomes `Any | None`.
   */
  lemma NestedRefBuiltLater()
    ensures Graph(NestedRefDefs) == []
    ensures IsSubmodelOrder(NestedRefDefs, ["A", "B"])
    ensures forall n {:trigger Get(NestedRefDefs, n)} :: n in ["A", "B"] ==> Get(NestedRefDefs, n).Some?
    ensures SubmodelTable(NestedRefDefs, ["A"], BaseTable) ==
      Ok(BaseTable[DefKey("A") := Model("A", "", [Field("b", Union([Any, NoneType]), None, None)])])
  {
    NestedRefNoEdge();
    NestedRefLookups();
    NestedRefTableA();
    NestedRefOrder();
  }

  /** Building `A` before `B` is an order the sort may return: it respects every edge, since there are none. */
  lemma NestedRefOrder()
    requires RecordNames(NestedRefDefs) == ["B", "A"] && Graph(NestedRefDefs) == []
    ensures IsSubmodelOrder(NestedRefDefs, ["A", "B"])
  {
    assert multiset(["A", "B"]) == multiset(["B", "A"]);
    assert RespectsDeps(["A", "B"], []);
  }

  /** Registering `A` first puts `A` with its field `b: Any | None` in the table. */
  lemma NestedRefTableA()
    requires Get(NestedRefDefs, "A") == Some(NestedRefDefs[1].1)
    ensures SubmodelTable(NestedRefDefs, ["A"], BaseTable) ==
      Ok(BaseTable[DefKey("A") := Model("A", "", [Field("b", Union([Any, NoneType]), None, None)])])
  {
    ABuiltWithoutB();
    assert ["A"][..0] == [];
    assert SubmodelTable(NestedRefDefs, [], BaseTable) == Ok(BaseTable);
  }

  /** `defs["A"]` and `defs["B"]` find the two records. */
  lemma NestedRefLookups()
    ensures Get(NestedRefDefs, "A") == Some(NestedRefDefs[1].1)
    ensures Get(NestedRefDefs, "B") == Some(NestedRefDefs[0].1)
  {
    assert NestedRefDefs[..1] == [NestedRefDefs[0]];
    assert NestedRefDefs[..1][..0] == [];
  }

  /** Built against the primitives alone, `A` has the one field `b: Any | None`. */
  lemma ABuiltWithoutB()
    ensures BuildModel(NestedRefDefs[1].1, BaseTable) == Ok(Model("A", "", [Field("b", Union([Any, NoneType]), None, None)]))
  {
    OptionalBWithoutB();
    var propsA := [("b", OptionalB)];
    assert propsA[..|propsA| - 1] == [];
    assert propsA[|propsA| - 1] == ("b", OptionalB);
    assert FieldsOf(propsA, BaseTable) == Ok([] + [Field("b", Union([Any, NoneType]), None, None)]);
    var a := NestedRefDefs[1].1;
    assert a.title == Some("A") && a.description == None && a.properties == Keyed(propsA);
    assert FieldsOf(EntriesOf(a.properties), BaseTable).Ok?;
    assert BuildModel(a, BaseTable).Ok?;
    assert BuildModel(a, BaseTable).value.fields == [Field("b", Union([Any, NoneType]), None, None)];
    assert BuildModel(a, BaseTable).value.name == "A";
    assert BuildModel(a, BaseTable).value.doc == "";
  }

  /** The records of `NestedRefDefs` are `B`, then `A`, and the graph has no edge. */
  lemma NestedRefNoEdge()
    ensures RecordNames(NestedRefDefs) == ["B", "A"]
    ensures Graph(NestedRefDefs) == []
  {
    var defs := NestedRefDefs;
    assert defs[..1][..0] == [];
    assert RecordDefs(defs[..1]) == [defs[0]];
    assert defs[..|defs| - 1] == defs[..1];
    assert RecordDefs(defs) == defs;
    var propsA := [("b", OptionalB)];
    assert propsA[..0] == [];
    assert RefTarget(OptionalB, ["B", "A"]) == None;
    assert DirectDeps(propsA, ["B", "A"]) == [];
    assert EdgesOf(defs[..1], ["B", "A"]) == [];
  }

  /** Against the primitives alone, `Optional[B]` is `Any | None`: the missing `#/$defs/B` falls back to `Any`. */
  lemma OptionalBWithoutB()
    ensures Resolve(OptionalB, BaseTable) == Ok(Union([Any, NoneType]))
  {
    var nullNode := EmptyNode.(typ := Some("null"));
    assert DefKey("B") !in BaseTable;
    assert BaseType(RefToB, BaseTable) == Ok(Any);
    assert Resolve(RefToB, BaseTable) == Ok(Any);
    assert BaseType(nullNode, BaseTable) == Ok(NoneType);
    assert Resolve(nullNode, BaseTable) == Ok(NoneType);
    assert [Any, NoneType][..1] == [Any];
    assert Dedup([Any]) == [Any] by { assert [Any][..0] == []; }
    assert Dedup([Any, NoneType]) == [Any, NoneType];
    assert Or(Any, NoneType) == Ok(Union([Any, NoneType]));
    assert OptionalB.anyOf.nodes == [RefToB, nullNode];
    assert FoldUnion(OptionalB, BaseTable, 2, Union([Any, NoneType])) == Ok(Union([Any, NoneType]));
    assert FoldUnion(OptionalB, BaseTable, 1, Any) == Ok(Union([Any, NoneType]));
    assert BaseType(OptionalB, BaseTable) == Ok(Union([Any, NoneType]));
  }

  /** A prefix of a list of distinct names is distinct. */
  lemma DistinctPrefix(order: seq<string>, i: nat)
    requires i <= |order| && forall a, b :: 0 <= a < b < |order| ==> order[a] != order[b]
    ensures forall a, b :: 0 <= a < b < |order[..i]| ==> order[..i][a] != order[..i][b]
  {
  }

  /** The first `j` of the first `i` names are the first `j` names. */
  lemma PrefixOfPrefix(order: seq<string>, i: nat, j: nat)
    requires j <= i <= |order|
    ensures order[..i][..j] == order[..j]
  {
  }

  /**
   * `_define_submodel_types`: builds the model of `$defs[submodel]` against
   * the table so far and returns it under `#/$defs/<submodel>`.
   */
  method DefineSubmodelTypes(schema: Node, submodel: string, table: map<string, Ty>)
    returns (r: Result<map<string, Ty>, SchemaError>)
    requires Get(EntriesOf(schema.defs), submodel).Some?
    ensures r.Ok? <==> BuildModel(Get(EntriesOf(schema.defs), submodel).value, table).Ok?
    ensures r.Ok? ==> r.value == map[DefKey(submodel) := BuildModel(Get(EntriesOf(schema.defs), submodel).value, table).value]
    ensures r.Err? ==> r.error == BuildModel(Get(EntriesOf(schema.defs), submodel).value, table).error
    decreases 1
  {
    var definition := Get(EntriesOf(schema.defs), submodel).value;
    var model, _ := CreateModelFromSchema(definition, Some(table));
    if model.Err? {
      return Err(model.error);
    }
    return Ok(map[DefKey(submodel) := model.value]);
  }

  /** Lines 47-48: each submodel in turn is built against the table so far and added to it. */
  method RegisterSubmodels(schema: Node, names: seq<string>, table0: map<string, Ty>)
    returns (r: Result<map<string, Ty>, SchemaError>)
    requires forall n {:trigger Get(EntriesOf(schema.defs), n)} :: n in names ==> Get(EntriesOf(schema.defs), n).Some?
    ensures r == SubmodelTable(EntriesOf(schema.defs), names, table0)
    decreases 2
  {
    var defs := EntriesOf(schema.defs);
    var table := table0;
    for i := 0 to |names|
      invariant SubmodelTable(defs, names[..i], table0) == Ok(table)
    {
      assert names[..i + 1][..i] == names[..i];
      var types := DefineSubmodelTypes(schema, names[i], table);
      if types.Err? {
        SubmodelTableFailureStops(defs, names, i + 1, table0);
        return Err(types.error);
      }
      assert table + types.value == table[DefKey(names[i]) := types.value[DefKey(names[i])]];
      table := table + types.value;
    }
    assert names[..|names|] == names;
    return Ok(table);
  }

  /**
   * `create_model_from_schema`. Given a table, the schema is built against it
   * and its `$defs` are not read. Without one, the table is seeded with the
   * primitives and the enums and the record-like defs are sorted as
   * `_get_sorted_submodels` does: with none, the sort fails on `pop`; with
   * a dependency cycle it is the circular-dependency error. Otherwise the
   * submodels are registered in an order that builds each after the defs it
   * references, and the root model is built against the full table.
   */
  method CreateModelFromSchema(schema: Node, typeMapper: Option<map<string, Ty>>)
    returns (r: Result<Ty, SchemaError>, ghost order: seq<string>)
    requires typeMapper.None? ==> UniqueKeys(EntriesOf(schema.defs))
    ensures typeMapper.Some? ==> r == BuildModel(schema, typeMapper.value)
    ensures typeMapper.None? && RecordNames(EntriesOf(schema.defs)) == [] ==> r == Err(PopFromEmptyList)
    ensures typeMapper.None? && RecordNames(EntriesOf(schema.defs)) != [] && !Acyclic(Graph(EntriesOf(schema.defs))) ==>
      r == Err(CircularDependency)
    ensures typeMapper.None? && RecordNames(EntriesOf(schema.defs)) != [] && Acyclic(Graph(EntriesOf(schema.defs))) ==>
      IsSubmodelOrder(EntriesOf(schema.defs), order) &&
      (forall n {:trigger Get(EntriesOf(schema.defs), n)} :: n in order ==> Get(EntriesOf(schema.defs), n).Some?) &&
      r == Synthesize(schema, order)
    decreases if typeMapper.None? then 3 else 0
  {
    order := [];
    var table: map<string, Ty>;
    if typeMapper.Some? {
      table := typeMapper.value;
    } else {
      var defs := EntriesOf(schema.defs);
      var enums := DefineEnumTypes(schema);
      table := BaseTable + enums;
      var sorted := SortSubmodels(defs);
      if sorted.Err? {
        return Err(sorted.error), order;
      }
      var names := sorted.value;
      order := names;
      SortedIsAcyclic(defs, names);
      OrderedNamesFound(defs, names);
      var registered := RegisterSubmodels(schema, names, table);
      if registered.Err? {
        return Err(registered.error), order;
      }
      table := registered.value;
    }
    if schema.title.None? {
      return Err(MissingTitle), order;
    }
    var fields := ParseFields(schema, table);
    if fields.Err? {
      return Err(fields.error), order;
    }
    r := Ok(Model(schema.title.value, schema.description.GetOr(""), fields.value));
  }

  /**
   * The top-level `create_model_from_schema` with the sort corrected: a
   * schema without record-like defs builds its root against the primitives
   * and the enums, and a dependency cycle is the circular-dependency error.
   * The root is built by the call that is given the full table.
   */
  method CreateModelFromSchemaCorrected(schema: Node) returns (r: Result<Ty, SchemaError>, ghost order: seq<string>)
    requires UniqueKeys(EntriesOf(schema.defs))
    ensures !Acyclic(Graph(EntriesOf(schema.defs))) ==> r == Err(CircularDependency)
    ensures Acyclic(Graph(EntriesOf(schema.defs))) ==>
      IsSubmodelOrder(EntriesOf(schema.defs), order) &&
      (forall n {:trigger Get(EntriesOf(schema.defs), n)} :: n in order ==> Get(EntriesOf(schema.defs), n).Some?) &&
      r == Synthesize(schema, order)
    ensures RecordNames(EntriesOf(schema.defs)) == [] ==> order == [] && r == BuildModel(schema, InitialTable(schema))
  {
    var defs := EntriesOf(schema.defs);
    var enums := DefineEnumTypes(schema);
    order := [];
    var sorted := OrderedSubmodels(defs);
    if sorted.Err? {
      if RecordNames(defs) == [] {
        SortedIsAcyclic(defs, []);
      }
      return Err(sorted.error), order;
    }
    var names := sorted.value;
    order := names;
    OrderedNamesFound(defs, names);
    var registered := RegisterSubmodels(schema, names, BaseTable + enums);
    if registered.Err? {
      return Err(registered.error), order;
    }
    ghost var unused;
    r, unused := CreateModelFromSchema(schema, Some(registered.value));
  }
}
