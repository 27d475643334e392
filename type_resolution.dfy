/**
 * `_resolve_type`, `_parse_fields` and `_define_enum_types`: from one schema
 * node to a type descriptor, given the table of named types built so far.
 */
module TypeResolution {
  import opened Wrappers
  import opened Values
  import opened Schema

  /** The eight primitive names every fresh type table starts with. */
  const BaseTable: map<string, Ty> := map[
    "any" := Any,
    "string" := Str,
    "integer" := Int,
    "number" := Float,
    "boolean" := Bool,
    "object" := BareDict,
    "array" := BareList,
    "null" := NoneType]

  /** The members of a type as an `X | Y` operand: a union contributes its alternatives. */
  function Members(t: Ty): seq<Ty> {
    if t.Union? then t.alts else [t]
  }

  /** No union nested inside a union, as Python's `|` always flattens. */
  predicate Flat(t: Ty) {
    forall m :: m in Members(t) ==> !m.Union?
  }

  predicate FlatTable(table: map<string, Ty>) {
    forall k :: k in table ==> Flat(table[k])
  }

  predicate NoDup(xs: seq<Ty>) {
    forall i, j :: 0 <= i < j < |xs| ==> xs[i] != xs[j]
  }

  /** Drops repeated members, keeping each first occurrence in place. */
  function Dedup(xs: seq<Ty>): (r: seq<Ty>)
    ensures NoDup(r)
    ensures forall t :: t in r <==> t in xs
    ensures |r| <= |xs|
  {
    if xs == [] then []
    else
      var d := Dedup(xs[..|xs| - 1]);
      if xs[|xs| - 1] in d then d else d + [xs[|xs| - 1]]
  }

  /**
   * Python's `a | b` on two types: the members are flattened and repeated
   * members dropped; one remaining member is the type itself. `None | None`
   * is a `TypeError`.
   */
  function Or(a: Ty, b: Ty): (r: Result<Ty, SchemaError>)
    ensures r.Err? <==> a == NoneType && b == NoneType
    ensures r.Ok? && Flat(a) && Flat(b) ==>
      Flat(r.value) && forall t :: t in Members(r.value) <==> t in Members(a) || t in Members(b)
    ensures r.Ok? && r.value.Union? && Flat(a) && Flat(b) ==> NoDup(r.value.alts) && |r.value.alts| != 1
  {
    if a == NoneType && b == NoneType then Err(UnsupportedUnion)
    else
      var ms := Dedup(Members(a) + Members(b));
      if |ms| == 1 then
        assert Flat(a) && Flat(b) ==> !ms[0].Union? by {
          if Flat(a) && Flat(b) {
            assert ms[0] in Members(a) + Members(b);
          }
        }
        assert ms == [ms[0]];
        Ok(ms[0])
      else
        Ok(Union(ms))
  }

  /**
   * The type of a node before `additionalProperties`/`items` are applied:
   * a `$ref` is looked up (a missing entry is `Any`), an `anyOf` is folded
   * with `|`, anything else is looked up by its `type` (default `"any"`).
   */
  function BaseType(n: Node, table: map<string, Ty>): (r: Result<Ty, SchemaError>)
    ensures FlatTable(table) && r.Ok? ==> Flat(r.value)
    decreases n, 1
  {
    if n.ref.Some? then
      Ok(if n.ref.value in table then table[n.ref.value] else Any)
    else if n.anyOf.Present? then
      var nodes := n.anyOf.nodes;
      if |nodes| == 0 then Err(EmptyAnyOf)
      else
        assert nodes[0] in nodes;
        var first :- Resolve(nodes[0], table);
        FoldUnion(n, table, 1, first)
    else
      var key := n.typ.GetOr("any");
      if key in table then Ok(table[key]) else Err(UnknownType(key))
  }

  /** `reduce(|, ...)` over the resolved `anyOf` members from index `i` on, starting from `acc`. */
  function FoldUnion(n: Node, table: map<string, Ty>, i: nat, acc: Ty): (r: Result<Ty, SchemaError>)
    requires n.anyOf.Present? && i <= |n.anyOf.nodes|
    ensures FlatTable(table) && Flat(acc) && r.Ok? ==> Flat(r.value)
    decreases n, 0, |n.anyOf.nodes| - i
  {
    var nodes := n.anyOf.nodes;
    if i == |nodes| then Ok(acc)
    else
      assert nodes[i] in nodes;
      var next :- Resolve(nodes[i], table);
      var acc' :- Or(acc, next);
      FoldUnion(n, table, i + 1, acc')
  }

  /** `_resolve_type`: an `object` with `additionalProperties` becomes a typed dict, an `array` with `items` a typed list. */
  function Resolve(n: Node, table: map<string, Ty>): (r: Result<Ty, SchemaError>)
    ensures FlatTable(table) && r.Ok? ==> Flat(r.value)
    decreases n, 2
  {
    var base :- BaseType(n, table);
    if base == BareDict && n.additionalProperties.Some? then
      match n.additionalProperties
      case Some(sub) =>
        var v :- Resolve(sub, table);
        Ok(Dict(v))
    else if base == BareList && n.items.Some? then
      match n.items
      case Some(sub) =>
        var v :- Resolve(sub, table);
        Ok(List(v))
    else
      Ok(base)
  }

  /** A `$ref` resolves to the table entry for exactly that string, and to `Any` when there is none. */
  lemma ResolveRef(n: Node, table: map<string, Ty>)
    requires n.ref.Some?
    ensures n.ref.value !in table ==> Resolve(n, table) == Ok(Any)
    ensures n.ref.value in table && table[n.ref.value] !in {BareDict, BareList} ==>
      Resolve(n, table) == Ok(table[n.ref.value])
  {
  }

  /** With no `$ref` or `anyOf`, the `type` name (default `"any"`) is looked up; an unknown name is an error. */
  lemma ResolveTypeName(n: Node, table: map<string, Ty>)
    requires n.ref.None? && n.anyOf.Absent?
    ensures n.typ.GetOr("any") !in table ==> Resolve(n, table) == Err(UnknownType(n.typ.GetOr("any")))
    ensures n.typ.GetOr("any") in table ==> BaseType(n, table) == Ok(table[n.typ.GetOr("any")])
    ensures n.typ.None? && "any" in table && table["any"] == Any ==> Resolve(n, table) == Ok(Any)
  {
  }

  /** An `anyOf` with no members fails; one member gives that member's type. */
  lemma ResolveAnyOfSmall(n: Node, table: map<string, Ty>)
    requires n.ref.None? && n.anyOf.Present?
    ensures n.anyOf.nodes == [] ==> Resolve(n, table) == Err(EmptyAnyOf)
    ensures |n.anyOf.nodes| == 1 ==> BaseType(n, table) == Resolve(n.anyOf.nodes[0], table)
  {
  }

  /** The typed containers: `Dict` of the resolved `additionalProperties`, `List` of the resolved `items`. */
  lemma ResolveContainers(n: Node, table: map<string, Ty>)
    requires BaseType(n, table) == Ok(BareDict) || BaseType(n, table) == Ok(BareList)
    ensures BaseType(n, table) == Ok(BareDict) && n.additionalProperties.Some? ==>
      Resolve(n, table) == (var v :- Resolve(n.additionalProperties.value, table); Ok(Dict(v)))
    ensures BaseType(n, table) == Ok(BareList) && n.items.Some? ==>
      Resolve(n, table) == (var v :- Resolve(n.items.value, table); Ok(List(v)))
    ensures BaseType(n, table) == Ok(BareDict) && n.additionalProperties.None? ==> Resolve(n, table) == Ok(BareDict)
    ensures BaseType(n, table) == Ok(BareList) && n.items.None? ==> Resolve(n, table) == Ok(BareList)
  {
  }

  /** The members of one resolved subschema, or none when it fails to resolve. */
  function ResolvedMembers(m: Node, table: map<string, Ty>): seq<Ty> {
    var r := Resolve(m, table);
    if r.Ok? then Members(r.value) else []
  }

  /** `t` is a member of one of the resolved `anyOf` subschemas from index `i` on. */
  ghost predicate InLaterMember(n: Node, table: map<string, Ty>, i: nat, t: Ty)
    requires n.anyOf.Present?
  {
    exists j :: i <= j < |n.anyOf.nodes| && t in ResolvedMembers(n.anyOf.nodes[j], table)
  }

  /** The subschemas from `i` on are subschema `i` and those from `i + 1` on. */
  lemma InLaterMemberStep(n: Node, table: map<string, Ty>, i: nat, t: Ty)
    requires n.anyOf.Present? && i < |n.anyOf.nodes|
    ensures InLaterMember(n, table, i, t) <==>
      t in ResolvedMembers(n.anyOf.nodes[i], table) || InLaterMember(n, table, i + 1, t)
  {
    var nodes := n.anyOf.nodes;
    if InLaterMember(n, table, i, t) {
      var j :| i <= j < |nodes| && t in ResolvedMembers(nodes[j], table);
      if j > i {
        assert i + 1 <= j < |nodes| && t in ResolvedMembers(nodes[j], table);
      }
    }
    if InLaterMember(n, table, i + 1, t) {
      var j :| i + 1 <= j < |nodes| && t in ResolvedMembers(nodes[j], table);
      assert i <= j < |nodes| && t in ResolvedMembers(nodes[j], table);
    }
  }

  /**
   * Folding `anyOf` members with `|` yields a type whose members are exactly
   * the members of the accumulator and of every remaining resolved subschema.
   */
  lemma {:induction false} FoldUnionMembers(n: Node, table: map<string, Ty>, i: nat, acc: Ty)
    requires n.anyOf.Present? && i <= |n.anyOf.nodes|
    requires FlatTable(table) && Flat(acc)
    requires FoldUnion(n, table, i, acc).Ok?
    ensures forall t :: t in Members(FoldUnion(n, table, i, acc).value) <==>
      t in Members(acc) || InLaterMember(n, table, i, t)
    decreases |n.anyOf.nodes| - i
  {
    var nodes := n.anyOf.nodes;
    if i < |nodes| {
      assert nodes[i] in nodes;
      var next := Resolve(nodes[i], table).value;
      var acc' := Or(acc, next).value;
      assert FoldUnion(n, table, i, acc) == FoldUnion(n, table, i + 1, acc');
      assert ResolvedMembers(nodes[i], table) == Members(next);
      FoldUnionMembers(n, table, i + 1, acc');
      FoldStepMembers(n, table, i, acc, next, acc', FoldUnion(n, table, i, acc).value);
    }
  }

  /** One step of the fold: the members of `acc'` are those of `acc` and of subschema `i`. */
  lemma FoldStepMembers(n: Node, table: map<string, Ty>, i: nat, acc: Ty, next: Ty, acc': Ty, folded: Ty)
    requires n.anyOf.Present? && i < |n.anyOf.nodes|
    requires ResolvedMembers(n.anyOf.nodes[i], table) == Members(next)
    requires forall t :: t in Members(acc') <==> t in Members(acc) || t in Members(next)
    requires forall t :: t in Members(folded) <==> t in Members(acc') || InLaterMember(n, table, i + 1, t)
    ensures forall t :: t in Members(folded) <==> t in Members(acc) || InLaterMember(n, table, i, t)
  {
    forall t ensures t in Members(folded) <==> t in Members(acc) || InLaterMember(n, table, i, t) {
      InLaterMemberStep(n, table, i, t);
    }
  }

  /** The fields `_parse_fields` builds from `(name, subschema)` pairs, in order. */
  function FieldsOf(props: seq<(string, Node)>, table: map<string, Ty>): Result<seq<Field>, SchemaError>
    decreases |props|
  {
    if props == [] then Ok([])
    else
      var init :- FieldsOf(props[..|props| - 1], table);
      var (name, node) := props[|props| - 1];
      var ty :- Resolve(node, table);
      Ok(init + [Field(name, ty, node.description, node.default)])
  }

  /** Once a property fails to resolve, the later ones are never reached: the first failure is the result. */
  lemma {:induction false} FieldsOfFailureStops(props: seq<(string, Node)>, k: nat, table: map<string, Ty>)
    requires k <= |props| && FieldsOf(props[..k], table).Err?
    ensures FieldsOf(props, table) == FieldsOf(props[..k], table)
    decreases |props| - k
  {
    if k < |props| {
      assert props[..k + 1][..k] == props[..k];
      FieldsOfFailureStops(props, k + 1, table);
    } else {
      assert props[..k] == props;
    }
  }

  /** `_parse_fields`: one field per property, resolved in declaration order. */
  method ParseFields(schema: Node, table: map<string, Ty>) returns (r: Result<seq<Field>, SchemaError>)
    ensures r == FieldsOf(EntriesOf(schema.properties), table)
  {
    var props := EntriesOf(schema.properties);
    var fields: seq<Field> := [];
    for i := 0 to |props|
      invariant FieldsOf(props[..i], table) == Ok(fields)
    {
      assert props[..i + 1][..i] == props[..i];
      var (name, node) := props[i];
      var ty := Resolve(node, table);
      if ty.Err? {
        FieldsOfFailureStops(props, i + 1, table);
        return Err(ty.error);
      }
      fields := fields + [Field(name, ty.value, node.description, node.default)];
    }
    assert props[..|props|] == props;
    return Ok(fields);
  }

  /** The fields are built exactly when every property resolves. */
  lemma {:induction false} FieldsOfOk(props: seq<(string, Node)>, table: map<string, Ty>)
    ensures FieldsOf(props, table).Ok? <==> forall i :: 0 <= i < |props| ==> Resolve(props[i].1, table).Ok?
    decreases |props|
  {
    if props != [] {
      var init := props[..|props| - 1];
      FieldsOfOk(init, table);
      assert forall i :: 0 <= i < |init| ==> init[i] == props[i];
    }
  }

  /**
   * One field per property, in declaration order, named after it, of its
   * resolved type, with its description; it is required exactly when the
   * property has no `default`, and otherwise defaults to that value.
   */
  lemma {:induction false} FieldsOfFields(props: seq<(string, Node)>, table: map<string, Ty>)
    requires FieldsOf(props, table).Ok?
    ensures var fs := FieldsOf(props, table).value;
      |fs| == |props| &&
      forall i :: 0 <= i < |props| ==>
        fs[i].name == props[i].0 && Resolve(props[i].1, table) == Ok(fs[i].ty) &&
        fs[i].description == props[i].1.description &&
        (fs[i].default.None? <==> props[i].1.default.None?) &&
        (fs[i].default.Some? ==> fs[i].default.value == props[i].1.default.value)
    decreases |props|
  {
    if props != [] {
      var init := props[..|props| - 1];
      var node := props[|props| - 1].1;
      assert FieldsOf(init, table).Ok?;
      FieldsOfFields(init, table);
      var before := FieldsOf(init, table).value;
      var fs := FieldsOf(props, table).value;
      assert fs == before + [Field(props[|props| - 1].0, Resolve(node, table).value, node.description, node.default)];
      assert forall i :: 0 <= i < |init| ==> init[i] == props[i] && fs[i] == before[i];
    }
  }

  /** The enum registered for one `$defs` entry holding `enum`: its members are the listed values in order. */
  function EnumFor(name: string, def: Node): Ty
    requires def.enumValues.Some?
  {
    Enum(name, def.description.GetOr(""), def.enumValues.value)
  }

  /** The table `_define_enum_types` returns for the `$defs` pairs, in order. */
  function EnumTable(defs: seq<(string, Node)>): map<string, Ty>
    decreases |defs|
  {
    if defs == [] then map[]
    else
      var t := EnumTable(defs[..|defs| - 1]);
      var (name, def) := defs[|defs| - 1];
      if def.enumValues.Some? then t[DefKey(name) := EnumFor(name, def)] else t
  }

  /** `_define_enum_types`: registers every `$defs` entry that has `enum`. */
  method DefineEnumTypes(schema: Node) returns (types: map<string, Ty>)
    ensures types == EnumTable(EntriesOf(schema.defs))
  {
    var defs := EntriesOf(schema.defs);
    types := map[];
    for i := 0 to |defs|
      invariant types == EnumTable(defs[..i])
    {
      assert defs[..i + 1][..i] == defs[..i];
      var (name, definition) := defs[i];
      if definition.enumValues.None? {
        continue;
      }
      types := types[DefKey(name) := EnumFor(name, definition)];
    }
    assert defs[..|defs|] == defs;
  }

  /** Exactly one entry per `$defs` item holding `enum`, keyed `#/$defs/<name>`. */
  lemma {:induction false} EnumTableKeys(defs: seq<(string, Node)>)
    ensures forall k :: k in EnumTable(defs) <==>
      exists i :: 0 <= i < |defs| && defs[i].1.enumValues.Some? && k == DefKey(defs[i].0)
    decreases |defs|
  {
    if defs != [] {
      var init := defs[..|defs| - 1];
      var last := |defs| - 1;
      EnumTableKeys(init);
      forall k | k in EnumTable(defs)
        ensures exists i :: 0 <= i < |defs| && defs[i].1.enumValues.Some? && k == DefKey(defs[i].0)
      {
        if k !in EnumTable(init) {
          assert defs[last].1.enumValues.Some? && k == DefKey(defs[last].0);
        } else {
          var i :| 0 <= i < |init| && init[i].1.enumValues.Some? && k == DefKey(init[i].0);
          assert defs[i] == init[i];
        }
      }
      forall k | exists i :: 0 <= i < |defs| && defs[i].1.enumValues.Some? && k == DefKey(defs[i].0)
        ensures k in EnumTable(defs)
      {
        var i :| 0 <= i < |defs| && defs[i].1.enumValues.Some? && k == DefKey(defs[i].0);
        if i < last {
          assert init[i] == defs[i];
        }
      }
    }
  }

  /** With distinct `$defs` names, the entry of each item holding `enum` has that item's values in order. */
  lemma {:induction false} EnumTableValues(defs: seq<(string, Node)>)
    requires UniqueKeys(defs)
    ensures forall i :: 0 <= i < |defs| && defs[i].1.enumValues.Some? ==>
      DefKey(defs[i].0) in EnumTable(defs) && EnumTable(defs)[DefKey(defs[i].0)] == EnumFor(defs[i].0, defs[i].1)
    decreases |defs|
  {
    if defs != [] {
      var init := defs[..|defs| - 1];
      var last := |defs| - 1;
      assert UniqueKeys(init);
      EnumTableValues(init);
      forall i | 0 <= i < |defs| && defs[i].1.enumValues.Some?
        ensures DefKey(defs[i].0) in EnumTable(defs) && EnumTable(defs)[DefKey(defs[i].0)] == EnumFor(defs[i].0, defs[i].1)
      {
        if i < last {
          DefKeyInjective(defs[i].0, defs[last].0);
          assert init[i] == defs[i];
        }
      }
    }
  }
}
