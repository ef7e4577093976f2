/**
 * The `S` schema builder and the `Schemas` registry of definitions. Each
 * builder returns a plain schema node; spreading a props object over a base
 * node is `Overlay`.
 */
module JsonSchema {
  import opened Wrappers
  import opened Json
  import opened Schema

  // ---------------------------------------------------------------------------
  // Spreading keywords
  // ---------------------------------------------------------------------------

  /** The later of two optional keyword values: `over` when it is set. */
  function Later<T>(base: Option<T>, over: Option<T>): Option<T>
  {
    if over.Some? then over else base
  }

  /** The later of two value keywords (`const`, `default`): `over` unless it is `undefined`. */
  function LaterValue(base: Value, over: Value): Value
  {
    if over != Undefined then over else base
  }

  /** `{...base, ...props}`: every keyword `props` sets replaces the one of `base`. */
  function Overlay(base: Keywords, props: Keywords): Keywords
  {
    Keywords(
      Later(base.jsonType, props.jsonType),
      Later(base.title, props.title),
      Later(base.ref, props.ref),
      LaterValue(base.constValue, props.constValue),
      Later(base.enumValues, props.enumValues),
      LaterValue(base.defaultValue, props.defaultValue),
      Later(base.properties, props.properties),
      Later(base.required, props.required),
      Later(base.patternProperties, props.patternProperties),
      Later(base.additionalProperties, props.additionalProperties),
      Later(base.propertyNames, props.propertyNames),
      Later(base.minProperties, props.minProperties),
      Later(base.maxProperties, props.maxProperties),
      Later(base.items, props.items),
      Later(base.additionalItems, props.additionalItems),
      Later(base.minItems, props.minItems),
      Later(base.maxItems, props.maxItems),
      Later(base.uniqueItems, props.uniqueItems),
      Later(base.minimum, props.minimum),
      Later(base.maximum, props.maximum),
      Later(base.exclusiveMinimum, props.exclusiveMinimum),
      Later(base.exclusiveMaximum, props.exclusiveMaximum),
      Later(base.multipleOf, props.multipleOf),
      Later(base.minLength, props.minLength),
      Later(base.maxLength, props.maxLength),
      Later(base.pattern, props.pattern))
  }

  /** Spreading behaves as object spread does: `{}` is neutral on either side, repeats change nothing, and grouping does not matter. */
  lemma OverlayLaws(a: Keywords, b: Keywords, c: Keywords)
    ensures Overlay(a, NoKeywords) == a
    ensures Overlay(NoKeywords, a) == a
    ensures Overlay(a, a) == a
    ensures Overlay(Overlay(a, b), c) == Overlay(a, Overlay(b, c))
    ensures Overlay(Overlay(a, b), b) == Overlay(a, b)
  {
  }

  // ---------------------------------------------------------------------------
  // The static builders
  // ---------------------------------------------------------------------------

  /**
   * `{ type: <t>, ...props }`: the node has type `t` unless the props set a
   * type of their own, and every other keyword is the props' own.
   */
  function Typed(t: JsonType, props: Option<Keywords>): (r: Schema)
    ensures r.Node?
    ensures props.None? ==> r.kw == NoKeywords.(jsonType := Some(Single(t)))
    ensures props.Some? ==> r.kw.(jsonType := None) == props.value.(jsonType := None)
    ensures r.kw.jsonType == if props.Some? && props.value.jsonType.Some? then props.value.jsonType else Some(Single(t))
  {
    Node(Overlay(NoKeywords.(jsonType := Some(Single(t))), props.GetOr(NoKeywords)))
  }

  /** `S.string(props)`. */
  function StringSchema(props: Option<Keywords>): Schema { Typed(StringType, props) }

  /** `S.number(props)`. */
  function NumberSchema(props: Option<Keywords>): Schema { Typed(NumberType, props) }

  /** `S.integer(props)`. */
  function IntegerSchema(props: Option<Keywords>): Schema { Typed(IntegerType, props) }

  /** `S.boolean(props)`. */
  function BooleanSchema(props: Option<Keywords>): Schema { Typed(BooleanType, props) }

  /** `S.null(props)`. */
  function NullSchema(props: Option<Keywords>): Schema { Typed(NullType, props) }

  /** `S.array(props)`. */
  function ArraySchema(props: Option<Keywords>): Schema { Typed(ArrayType, props) }

  /** `S.$ref(ref)`: a node holding only `$ref`. */
  function RefSchema(ref: string): (r: Schema)
    ensures r.Node? && r.kw.ref == Some(ref) && r.kw.(ref := None) == NoKeywords
  {
    Node(NoKeywords.(ref := Some(ref)))
  }

  /**
   * The props of `S.object`: a title, the required and the optional
   * properties as name-to-schema objects, and the remaining object keywords.
   */
  datatype ObjectProps = ObjectProps(
    title: Option<string>,
    required: Option<seq<(string, Schema)>>,
    optional: Option<seq<(string, Schema)>>,
    rest: Keywords)

  /** A JavaScript-truthy title: present and not empty. */
  predicate TruthyTitle(title: Option<string>)
  {
    title.Some? && title.value != ""
  }

  /**
   * `S.object(props)`. Without props: just `{type: 'object'}`. With props:
   * the title when truthy, `required` listing the required names in order,
   * `properties` holding the required then the optional properties (an
   * optional one replacing a required one of the same name), then every
   * other keyword of the props copied over these, and `additionalProperties`
   * false unless the props set it.
   */
  function ObjectSchema(props: Option<ObjectProps>): (r: Schema)
    ensures r.Node?
    ensures props.None? ==> r.kw == NoKeywords.(jsonType := Some(Single(ObjectType)))
    ensures props.Some? ==>
      var p := props.value;
      && r.kw.additionalProperties == Some(p.rest.additionalProperties.GetOr(BoolSchema(false)))
      && (p.rest.jsonType.None? ==> r.kw.jsonType == Some(Single(ObjectType)))
      && (p.rest.title.None? ==> (r.kw.title.Some? <==> TruthyTitle(p.title)) && (TruthyTitle(p.title) ==> r.kw.title == p.title))
      && (p.rest.required.None? ==>
            (r.kw.required.Some? <==> p.required.Some?) &&
            (p.required.Some? ==> r.kw.required.value == Keys(p.required.value)))
      && (p.rest.properties.None? ==>
            r.kw.properties.Some? &&
            (forall k :: k in Keys(r.kw.properties.value.entries) <==>
               k in Keys(p.required.GetOr([])) || k in Keys(p.optional.GetOr([]))) &&
            (DistinctKeys(p.optional.GetOr([])) ==> forall k ::
               Find(r.kw.properties.value.entries, k) ==
                 if k in Keys(p.optional.GetOr([])) then Find(p.optional.GetOr([]), k) else Find(p.required.GetOr([]), k)))
      && (p.rest.jsonType.Some? ==> r.kw.jsonType == p.rest.jsonType)
      && (p.rest.title.Some? ==> r.kw.title == p.rest.title)
      && (p.rest.required.Some? ==> r.kw.required == p.rest.required)
      && (p.rest.properties.Some? ==> r.kw.properties == p.rest.properties)
      && r.kw.(jsonType := None, title := None, required := None, properties := None, additionalProperties := None) ==
         p.rest.(jsonType := None, title := None, required := None, properties := None, additionalProperties := None)
  {
    match props
    case None => Node(NoKeywords.(jsonType := Some(Single(ObjectType))))
    case Some(p) =>
      var base := NoKeywords.(
        jsonType := Some(Single(ObjectType)),
        title := if TruthyTitle(p.title) then p.title else None,
        required := if p.required.Some? then Some(Keys(p.required.value)) else None,
        properties := Some(SchemaMap(Merge(p.required.GetOr([]), p.optional.GetOr([])))));
      var rest := p.rest;
      Node(Overlay(base, rest).(additionalProperties := Some(rest.additionalProperties.GetOr(BoolSchema(false)))))
  }

  // ---------------------------------------------------------------------------
  // The builder handed to a definition
  // ---------------------------------------------------------------------------

  /** `new S(location, name)`: the builder a registry hands to a definition callback. */
  datatype Builder = Builder(location: string, name: Option<string>) {

    /** `ref(name)`: a reference into the builder's registry. */
    function Ref(target: string): (r: Schema)
      ensures r.Node? && r.kw.ref == Some(location + "/" + target)
    {
      RefSchema(location + "/" + target)
    }

    /**
     * `object(props)`: `S.object` with the title defaulting to the
     * definition's name; the props are never absent, so the result always
     * carries `properties` and `additionalProperties`.
     */
    function Object(props: Option<ObjectProps>): (r: Schema)
      ensures r.Node? && r.kw.additionalProperties.Some?
      ensures props.None? ==> r.kw.title == (if TruthyTitle(name) then name else None)
      ensures props.Some? && props.value.rest.title.None? ==>
        r.kw.title == if TruthyTitle(Later(name, props.value.title)) then Later(name, props.value.title) else None
    {
      match props
      case None => ObjectSchema(Some(ObjectProps(name, None, None, NoKeywords)))
      case Some(p) => ObjectSchema(Some(p.(title := Later(name, p.title))))
    }

    /**
     * `arrayOf(reference, props)`: an array whose items refer to another
     * definition, unless the props set `items`; every other keyword of the
     * props is copied over, `type` included.
     */
    function ArrayOf(reference: string, props: Option<Keywords>): (r: Schema)
      ensures r.Node?
      ensures (props.None? || props.value.jsonType.None?) ==> r.kw.jsonType == Some(Single(ArrayType))
      ensures props.Some? && props.value.jsonType.Some? ==> r.kw.jsonType == props.value.jsonType
      ensures r.kw.(jsonType := None, items := None) == props.GetOr(NoKeywords).(jsonType := None, items := None)
      ensures (props.None? || props.value.items.None?) ==> r.kw.items == Some(ListItems(Ref(reference)))
      ensures props.Some? && props.value.items.Some? ==> r.kw.items == props.value.items
    {
      ArraySchema(Some(Overlay(NoKeywords.(items := Some(ListItems(Ref(reference)))), props.GetOr(NoKeywords))))
    }
  }

  // ---------------------------------------------------------------------------
  // The registry
  // ---------------------------------------------------------------------------

  /** What `add` is given: a schema, or a callback that builds one from a builder. */
  datatype Entry = Literal(schema: Schema) | Callback(build: Builder -> Schema)

  /** `Schemas`: named definitions under one location, `#/definitions` by default. */
  class Schemas {
    const location: string
    var schemas: map<string, Schema>

    /** `Schemas.create(location)`. */
    constructor Create(location: Option<string>)
      ensures this.location == location.GetOr("#/definitions")
      ensures schemas == map[]
    {
      this.location := location.GetOr("#/definitions");
      schemas := map[];
    }

    /** The schema an entry stands for: a callback is handed a builder at this registry's location, named after the entry. */
    function Resolve(name: string, entry: Entry): Schema
    {
      match entry
      case Literal(s) => s
      case Callback(build) => build(Builder(location, Some(name)))
    }

    /** `add(name, schema)`: stores (or replaces) one definition and returns the registry itself. */
    method Add(name: string, entry: Entry) returns (r: Schemas)
      modifies this
      ensures r == this
      ensures schemas == old(schemas)[name := Resolve(name, entry)]
      ensures forall other :: other != name && other in old(schemas) ==> other in schemas && schemas[other] == old(schemas)[other]
    {
      schemas := schemas[name := Resolve(name, entry)];
      r := this;
    }

    /** `ref(name)`: the location, a slash, then the name, which can be read back. */
    function Ref(name: string): (r: string)
      ensures |r| == |location| + 1 + |name|
      ensures r[..|location|] == location && r[|location|] == '/' && r[|location| + 1..] == name
    {
      location + "/" + name
    }

    /** Distinct names give distinct references. */
    lemma RefInjective(a: string, b: string)
      ensures Ref(a) == Ref(b) ==> a == b
    {
      if Ref(a) == Ref(b) {
        assert a == Ref(a)[|location| + 1..];
      }
    }

    /** A callback's builder refers into the same registry: its `ref` is the registry's `ref`. */
    lemma BuilderRefersIntoRegistry(name: string, target: string)
      ensures Builder(location, Some(name)).Ref(target) == RefSchema(Ref(target))
    {
    }
  }
}
