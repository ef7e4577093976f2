/**
 * The draft-07 schema shape the validator and the builder work on: a boolean
 * schema, or a node whose keywords are all optional.
 */
module Schema {
  import opened Wrappers
  import opened Json

  /** The seven names a draft-07 `type` keyword may hold. */
  datatype JsonType = StringType | NumberType | IntegerType | BooleanType | NullType | ObjectType | ArrayType

  /** `type`: one name, or an array of names (a union). */
  datatype TypeSpec = Single(t: JsonType) | Union(ts: seq<JsonType>)

  /** A keyword whose value is an object from names (or patterns) to schemas. */
  datatype SchemaMap = SchemaMap(entries: seq<(string, Schema)>)

  /** `items`: one schema for every element, or one schema per position. */
  datatype Items = ListItems(schema: Schema) | TupleItems(schemas: seq<Schema>)

  datatype Schema = BoolSchema(accepts: bool) | Node(kw: Keywords)

  /**
   * The keywords of a schema node. `constValue` and `defaultValue` are
   * `Undefined` when absent, exactly as the source tests them
   * (`!== undefined`).
   */
  datatype Keywords = Keywords(
    jsonType: Option<TypeSpec>,
    title: Option<string>,
    ref: Option<string>,
    constValue: Value,
    enumValues: Option<seq<Value>>,
    defaultValue: Value,
    properties: Option<SchemaMap>,
    required: Option<seq<string>>,
    patternProperties: Option<SchemaMap>,
    additionalProperties: Option<Schema>,
    propertyNames: Option<Schema>,
    minProperties: Option<nat>,
    maxProperties: Option<nat>,
    items: Option<Items>,
    additionalItems: Option<Schema>,
    minItems: Option<nat>,
    maxItems: Option<nat>,
    uniqueItems: Option<bool>,
    minimum: Option<real>,
    maximum: Option<real>,
    exclusiveMinimum: Option<real>,
    exclusiveMaximum: Option<real>,
    multipleOf: Option<real>,
    minLength: Option<nat>,
    maxLength: Option<nat>,
    pattern: Option<string>)

  /** The node `{}`. */
  const NoKeywords: Keywords := Keywords(
    None, None, None, Undefined, None, Undefined, None, None, None, None, None, None, None,
    None, None, None, None, None, None, None, None, None, None, None, None, None)

  /**
   * The keywords a validator reads from a schema: a boolean schema has none
   * (reading a property of `true` or `false` yields `undefined`).
   */
  function KeywordsOf(s: Schema): Keywords
  {
    if s.Node? then s.kw else NoKeywords
  }

  /** The entries of an optional name-to-schema keyword (`?? {}`). */
  function Entries(m: Option<SchemaMap>): seq<(string, Schema)>
  {
    if m.Some? then m.value.entries else []
  }

  /** The literal a `type` name is written as. */
  function TypeName(t: JsonType): string
  {
    match t
    case StringType => "string"
    case NumberType => "number"
    case IntegerType => "integer"
    case BooleanType => "boolean"
    case NullType => "null"
    case ObjectType => "object"
    case ArrayType => "array"
  }
}
