/**
 * What the schemas the builder produces accept when validated.
 */
module BuilderValidation {
  import opened Wrappers
  import opened Json
  import opened Schema
  import opened SchemaValidator
  import opened SchemaValidatorProperties
  import opened JsonSchema

  /** `S.string()` accepts exactly the strings. */
  lemma StringBuilderAcceptsStrings(v: Value, loc: string, path: string, m: Matcher)
    requires v != Undefined
    ensures Validate(StringSchema(None), v, loc, path, m).Valid? <==> v.Str?
  {
    StringValidIff(StringSchema(None), v, loc, path, m);
  }

  /** `S.number()` accepts exactly the numbers. */
  lemma NumberBuilderAcceptsNumbers(v: Value, loc: string, path: string, m: Matcher)
    requires v != Undefined
    ensures Validate(NumberSchema(None), v, loc, path, m).Valid? <==> v.Num?
  {
    NumberValidIff(NumberSchema(None), v, loc, path, m);
  }

  /** `S.integer()` accepts exactly the integral numbers. */
  lemma IntegerBuilderAcceptsIntegers(v: Value, loc: string, path: string, m: Matcher)
    requires v != Undefined
    ensures Validate(IntegerSchema(None), v, loc, path, m).Valid? <==> v.Num? && IsIntegral(v.n)
  {
    assert IntegerSchema(None) == Node(NoKeywords.(jsonType := Some(Single(IntegerType))));
    PlainIntegerSchemaAcceptsExactlyIntegers(v, loc, path, m);
  }

  /** `S.boolean()` accepts exactly the booleans. */
  lemma BooleanBuilderAcceptsBooleans(v: Value, loc: string, path: string, m: Matcher)
    requires v != Undefined
    ensures Validate(BooleanSchema(None), v, loc, path, m).Valid? <==> v.Bool?
  {
    assert Validate(BooleanSchema(None), v, loc, path, m) == ValidateBoolean(BooleanSchema(None), v, loc, path);
  }

  /** `S.null()` accepts exactly `null`. */
  lemma NullBuilderAcceptsNull(v: Value, loc: string, path: string, m: Matcher)
    requires v != Undefined
    ensures Validate(NullSchema(None), v, loc, path, m).Valid? <==> v.Null?
  {
    assert Validate(NullSchema(None), v, loc, path, m) == ValidateNull(NullSchema(None), v, loc, path);
  }

  /** `S.string()`, `S.number()`, `S.integer()`, `S.boolean()` and `S.null()` accept exactly the defined values of their type. */
  lemma PlainBuildersAcceptTheirType(v: Value, loc: string, path: string, m: Matcher)
    requires v != Undefined
    ensures Validate(StringSchema(None), v, loc, path, m).Valid? <==> v.Str?
    ensures Validate(NumberSchema(None), v, loc, path, m).Valid? <==> v.Num?
    ensures Validate(IntegerSchema(None), v, loc, path, m).Valid? <==> v.Num? && IsIntegral(v.n)
    ensures Validate(BooleanSchema(None), v, loc, path, m).Valid? <==> v.Bool?
    ensures Validate(NullSchema(None), v, loc, path, m).Valid? <==> v.Null?
  {
    StringBuilderAcceptsStrings(v, loc, path, m);
    NumberBuilderAcceptsNumbers(v, loc, path, m);
    IntegerBuilderAcceptsIntegers(v, loc, path, m);
    BooleanBuilderAcceptsBooleans(v, loc, path, m);
    NullBuilderAcceptsNull(v, loc, path, m);
  }

  /** Props that leave the object keywords `S.object` computes to it. */
  predicate PlainRest(p: ObjectProps)
  {
    && p.rest.jsonType.None? && p.rest.title.None? && p.rest.required.None?
    && p.rest.properties.None? && p.rest.patternProperties.None? && p.rest.additionalProperties.None?
  }

  /**
   * `S.object` closes the object by default: a defined key that is neither
   * required nor optional makes the value invalid.
   */
  lemma BuiltObjectRejectsUndeclaredKeys(p: ObjectProps, v: Value, loc: string, path: string, m: Matcher, k: string)
    requires PlainRest(p) && v.Obj?
    requires Get(v.fields, k) != Undefined && k !in Keys(p.required.GetOr([])) && k !in Keys(p.optional.GetOr([]))
    ensures Validate(ObjectSchema(Some(p)), v, loc, path, m).Invalid?
  {
    var s := ObjectSchema(Some(p));
    assert k !in Keys(PropertyEntries(s));
    assert PatternEntries(s) == [];
    UndeclaredKeyIsAdditional(s, v, loc, path, m, k);
  }

  /** `S.object` enforces its required properties: one missing or `undefined` makes the value invalid. */
  lemma BuiltObjectRequiresItsRequiredProperties(p: ObjectProps, v: Value, loc: string, path: string, m: Matcher, k: string)
    requires PlainRest(p) && v.Obj? && p.required.Some?
    requires k in Keys(p.required.value) && Get(v.fields, k) == Undefined
    ensures Validate(ObjectSchema(Some(p)), v, loc, path, m).Invalid?
  {
    RequiredPropertyMissing(ObjectSchema(Some(p)), v, loc, path, m, k);
  }

  // Two of the source's own test cases, replayed on one schema:
  // RequiredPropertiesAreReportedTogether and AdditionalPropertyIsTheOnlyViolation.
  // The other lemmas of this part (NeitherABDefined … RootAdditionalLocation)
  // are helpers for those two: each evaluates one step of the validator on
  // this concrete schema and value, and states nothing beyond that.

  /** `S.object({ required: { a: S.string(), b: S.number() } })`. */
  function RequiredAB(): Schema
  {
    ObjectSchema(Some(ObjectProps(None, Some([("a", StringSchema(None)), ("b", NumberSchema(None))]), None, NoKeywords)))
  }

  /** The empty object misses both required properties, reported first, at the root. */
  lemma RequiredPropertiesAreReportedTogether(m: Matcher)
    ensures var r := Validate(RequiredAB(), Obj([]), "#", "#", m);
      && r.Invalid?
      && r.violations[0] == Violation(Obj([]), RequiredAB(), MissingRequired(["a", "b"]), "#", "#")
  {
    RequiredABKeywords();
    PreludeAB(Obj([]));
    NeitherABDefined();
    RequiredPropertyMissing(RequiredAB(), Obj([]), "#", "#", m, "a");
  }

  /** The empty object misses `a` and `b`, in that order. */
  lemma NeitherABDefined()
    ensures MissingNames(RequiredAB(), []) == ["a", "b"]
  {
    RequiredABKeywords();
    assert DefinedKeys([]) == [];
    assert Excluding(["a", "b"], []) == ["a", "b"] by {
      assert Excluding(["a", "b"][1..], []) == ["b"];
    }
  }

  /** `{a: 'abc', b: 5, c: true}`. */
  function WithExtraC(): Value
  {
    Obj([("a", Str("abc")), ("b", Num(5.0)), ("c", Bool(true))])
  }

  /** Only `c` of `WithExtraC()` is outside the two declared keys. */
  lemma ExtraCKeys()
    ensures DefinedKeys(WithExtraC().fields) == ["a", "b", "c"]
    ensures Excluding(["a", "b", "c"], Keys([("a", Str("abc")), ("b", Num(5.0))])) == ["c"]
  {
    var fs, ks := WithExtraC().fields, ["a", "b", "c"];
    assert Keys(fs) == ks;
    assert Get(fs, "a") == Str("abc");
    assert Get(fs, "b") == Num(5.0);
    assert Get(fs, "c") == Bool(true);
    assert DefinedAmong(ks[2..], fs) == ["c"];
    assert DefinedAmong(ks[1..], fs) == ["b", "c"];
  }

  /** The properties `RequiredAB()` declares, in order. */
  lemma DeclaredAB()
    ensures PropertyEntries(RequiredAB()) == [("a", StringSchema(None)), ("b", NumberSchema(None))]
  {
    assert PropertyEntries(RequiredAB()) == Merge([("a", StringSchema(None)), ("b", NumberSchema(None))], []);
  }

  /** `a` of `WithExtraC()` passes its declared schema unchanged. */
  lemma DeclaredAPasses(m: Matcher)
    ensures PropertyValidation(RequiredAB(), WithExtraC(), "#", "#", m, 0) == Valid(Str("abc"))
  {
    DeclaredAB();
    assert Get(WithExtraC().fields, "a") == Str("abc");
  }

  /** `b` of `WithExtraC()` passes its declared schema unchanged. */
  lemma DeclaredBPasses(m: Matcher)
    ensures PropertyValidation(RequiredAB(), WithExtraC(), "#", "#", m, 1) == Valid(Num(5.0))
  {
    DeclaredAB();
    assert Get(WithExtraC().fields, "b") == Num(5.0);
  }

  /** `a` and `b` of `WithExtraC()` pass their declared schemas unchanged. */
  lemma DeclaredABPass(m: Matcher)
    ensures PropertyEntries(RequiredAB()) == [("a", StringSchema(None)), ("b", NumberSchema(None))]
    ensures PropertyValidation(RequiredAB(), WithExtraC(), "#", "#", m, 0) == Valid(Str("abc"))
    ensures PropertyValidation(RequiredAB(), WithExtraC(), "#", "#", m, 1) == Valid(Num(5.0))
  {
    DeclaredAB();
    DeclaredAPasses(m);
    DeclaredBPasses(m);
  }

  /** The two declared properties, once merged. */
  function MergedABFields(): seq<(string, Value)>
  {
    [("a", Str("abc")), ("b", Num(5.0))]
  }

  /** `b` goes after `a`. */
  lemma PutAfterA()
    ensures Put([("a", Str("abc"))], "b", Num(5.0)) == MergedABFields()
  {
    assert Put([("a", Str("abc"))][1..], "b", Num(5.0)) == [("b", Num(5.0))];
  }

  /** One step of the declared-properties fold. */
  lemma PropertiesPartStep(s: Schema, v: Value, loc: string, path: string, m: Matcher, i: nat, acc: ObjectPart)
    requires v.Obj? && i < |PropertyEntries(s)|
    ensures PropertiesPart(s, v, loc, path, m, i, acc)
         == PropertiesPart(s, v, loc, path, m, i + 1,
              if PropertyKept(s, v, loc, path, m, i)
              then Absorb(acc, PropertyEntries(s)[i].0, PropertyValidation(s, v, loc, path, m, i))
              else acc)
  {
  }

  /** `b` validated, merged into `{a}`. */
  lemma AbsorbB(m: Matcher)
    ensures PropertyKept(RequiredAB(), WithExtraC(), "#", "#", m, 1)
    ensures Absorb(ObjectPart([("a", Str("abc"))], []), PropertyEntries(RequiredAB())[1].0, PropertyValidation(RequiredAB(), WithExtraC(), "#", "#", m, 1))
         == ObjectPart(MergedABFields(), [])
  {
    DeclaredABPass(m);
    PutAfterA();
  }

  /** Merging `b` into `{a}` gives `{a, b}`, and nothing is left to merge. */
  lemma MergeB(m: Matcher)
    ensures PropertiesPart(RequiredAB(), WithExtraC(), "#", "#", m, 1, ObjectPart([("a", Str("abc"))], []))
         == ObjectPart(MergedABFields(), [])
  {
    DeclaredABPass(m);
    AbsorbB(m);
    PropertiesPartStep(RequiredAB(), WithExtraC(), "#", "#", m, 1, ObjectPart([("a", Str("abc"))], []));
  }

  /** Merging `a` then `b` into the empty object gives `{a, b}`. */
  lemma MergeAB(m: Matcher)
    ensures PropertiesPart(RequiredAB(), WithExtraC(), "#", "#", m, 0, ObjectPart([], [])) == ObjectPart(MergedABFields(), [])
  {
    DeclaredABPass(m);
    MergeB(m);
  }

  /** An object meets `RequiredAB()`'s type, and there is no `const` or `enum` to fail. */
  lemma PreludeAB(v: Value)
    requires v.Obj?
    ensures Prelude(RequiredAB(), v, "#", "#") == ObjectPart([], [])
  {
    RequiredABKeywords();
    assert CommonReasons(ObjectType, RequiredAB(), v) == [];
  }

  /** `RequiredAB()` has no pattern properties, so their fold changes nothing. */
  lemma NoPatternsAB(m: Matcher, acc: ObjectPart)
    ensures PatternPropertiesPart(RequiredAB(), WithExtraC(), "#", "#", m, 0, acc) == acc
  {
    RequiredABKeywords();
  }

  /** Neither pattern properties nor common keywords add anything. */
  lemma MergedAB(m: Matcher)
    ensures Prelude(RequiredAB(), WithExtraC(), "#", "#") == ObjectPart([], [])
    ensures Merged(RequiredAB(), WithExtraC(), "#", "#", m) == ObjectPart(MergedABFields(), [])
  {
    PreludeAB(WithExtraC());
    MergeAB(m);
    NoPatternsAB(m, ObjectPart(MergedABFields(), []));
  }

  /** The keywords `RequiredAB()` is built with, besides its properties. */
  lemma RequiredABKeywords()
    ensures ObjectTyped(RequiredAB())
    ensures KeywordsOf(RequiredAB()).additionalProperties == Some(BoolSchema(false))
    ensures KeywordsOf(RequiredAB()).required == Some(["a", "b"])
    ensures KeywordsOf(RequiredAB()).propertyNames.None?
    ensures KeywordsOf(RequiredAB()).minProperties.None? && KeywordsOf(RequiredAB()).maxProperties.None?
    ensures KeywordsOf(RequiredAB()).constValue == Undefined && KeywordsOf(RequiredAB()).enumValues.None?
    ensures PatternEntries(RequiredAB()) == []
  {
    assert Keys([("a", StringSchema(None)), ("b", NumberSchema(None))]) == ["a", "b"];
  }

  /** `c` is the one key of `WithExtraC()` that the merge did not produce. */
  lemma OnlyCIsExtra(m: Matcher)
    ensures ExtraKeys(WithExtraC(), Merged(RequiredAB(), WithExtraC(), "#", "#", m)) == ["c"]
  {
    MergedAB(m);
    ExtraCKeys();
    assert ExtraKeys(WithExtraC(), ObjectPart(MergedABFields(), [])) == ["c"];
  }

  /** Both required properties are present. */
  lemma NothingMissing()
    ensures MissingNames(RequiredAB(), WithExtraC().fields) == []
  {
    RequiredABKeywords();
    ExtraCKeys();
  }

  /** Where `additionalProperties` sits in a root schema. */
  lemma RootAdditionalLocation()
    ensures "#" + "/additionalProperties" == "#/additionalProperties"
  {
  }

  /** The undeclared `c` is the one and only violation, at `#/additionalProperties` and the object's path. */
  lemma AdditionalPropertyIsTheOnlyViolation(m: Matcher)
    ensures var r := Validate(RequiredAB(), WithExtraC(), "#", "#", m);
      && r.Invalid? && |r.violations| == 1
      && r.violations[0] == Violation(WithExtraC(), BoolSchema(false), AdditionalProperties(["c"]), "#/additionalProperties", "#")
  {
    MergedAB(m);
    OnlyCIsExtra(m);
    NothingMissing();
    RequiredABKeywords();
    ExtraKeysAreTheOnlyViolation(RequiredAB(), WithExtraC(), "#", "#", m);
    RootAdditionalLocation();
  }
}
