/**
 * JSON Schema documents as pydantic emits them, and the type descriptors
 * that the schema-driven model synthesis builds from them.
 */
module Schema {
  import opened Wrappers
  import opened Values

  /** The `anyOf` keyword: absent, or a list of subschemas. */
  datatype NodeList = Absent | Present(nodes: seq<Node>)

  /** An object-valued keyword (`properties`, `$defs`): absent, or its (name, subschema) pairs in order. */
  datatype NodeMap = NoKey | Keyed(entries: seq<(string, Node)>)

  /**
   * One schema object, keeping the keywords the synthesis reads:
   * `title`, `description`, `$ref`, `anyOf`, `type`, `items`,
   * `additionalProperties`, `properties`, `enum`, `default` and `$defs`.
   * `None`/`Absent`/`NoKey` mean that the key is not in the object.
   */
  datatype Node = Node(
    title: Option<string>,
    description: Option<string>,
    ref: Option<string>,
    anyOf: NodeList,
    typ: Option<string>,
    items: Option<Node>,
    additionalProperties: Option<Node>,
    properties: NodeMap,
    enumValues: Option<seq<Json>>,
    default: Option<Json>,
    defs: NodeMap)

  /** The schema object `{}`: no keyword present. */
  const EmptyNode: Node := Node(None, None, None, Absent, None, None, None, NoKey, None, None, NoKey)

  /** `schema.get(key, {})` for an object-valued keyword. */
  function EntriesOf(m: NodeMap): seq<(string, Node)> {
    if m.Keyed? then m.entries else []
  }

  /**
   * A synthesized type. `NoneType` is the `None` that stands for `null`;
   * `BareDict`/`BareList` are the unparameterised `dict`/`list`;
   * `Union` holds the flattened, duplicate-free members of an `X | Y`.
   */
  datatype Ty =
    | Any
    | Str
    | Int
    | Float
    | Bool
    | NoneType
    | BareDict
    | BareList
    | Dict(value: Ty)
    | List(item: Ty)
    | Union(alts: seq<Ty>)
    | Enum(name: string, doc: string, values: seq<Json>)
    | Model(name: string, doc: string, fields: seq<Field>)

  /**
   * One field of a synthesized model: its annotated type, its description,
   * and its default (`None` means required, pydantic's `...`).
   */
  datatype Field = Field(name: string, ty: Ty, description: Option<string>, default: Option<Json>)

  /** The errors the synthesis can raise. */
  datatype SchemaError =
    | UnknownType(key: string)   // KeyError from the type table
    | EmptyAnyOf                 // reduce() of an empty sequence
    | UnsupportedUnion           // `None | None`
    | MissingTitle               // KeyError on schema["title"]
    | PopFromEmptyList           // IndexError from list.pop()
    | CircularDependency

  /** The key under which a definition is registered in the type table. */
  function DefKey(name: string): string {
    "#/$defs/" + name
  }

  lemma DefKeyInjective(a: string, b: string)
    ensures DefKey(a) == DefKey(b) <==> a == b
  {
    if DefKey(a) == DefKey(b) {
      assert a == DefKey(a)[8..] == DefKey(b)[8..] == b;
    }
  }
}
