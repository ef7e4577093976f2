/**
 * Properties of the validator that relate several of its operations: what
 * the per-type validators accept, where each keyword of an object schema
 * puts a property of the value, and which keywords have no effect.
 */
module SchemaValidatorProperties {
  import opened Wrappers
  import opened Json
  import opened Schema
  import opened SchemaValidator

  // ---------------------------------------------------------------------------
  // Scalars
  // ---------------------------------------------------------------------------

  lemma {:induction false} NoReasonsIffNoCheckFails(kind: JsonType, s: Schema, v: Value, cs: seq<Check>, m: Matcher)
    ensures FailingReasons(kind, s, v, cs, m) == [] <==> forall c :: c in cs ==> !Fails(kind, s, v, c, m)
  {
    if |cs| > 0 {
      NoReasonsIffNoCheckFails(kind, s, v, cs[1..], m);
      assert forall c :: c in cs <==> c == cs[0] || c in cs[1..];
    }
  }

  /**
   * The strings that equal `const`, are among `enum`, have a length within
   * `minLength`..`maxLength` and match `pattern`, each keyword applying only
   * when present.
   */
  predicate StringAccepted(kw: Keywords, v: Value, m: Matcher)
  {
    && v.Str?
    && (kw.constValue == Undefined || v == kw.constValue)
    && (kw.enumValues.None? || v in kw.enumValues.value)
    && (kw.minLength.None? || |v.s| >= kw.minLength.value)
    && (kw.maxLength.None? || |v.s| <= kw.maxLength.value)
    && (kw.pattern.None? || m(v.s, kw.pattern.value))
  }

  /** `validateString` accepts exactly the values its keywords accept. */
  lemma StringValidIff(s: Schema, v: Value, loc: string, path: string, m: Matcher)
    ensures ValidateString(s, v, loc, path, m).Valid? <==> StringAccepted(KeywordsOf(s), v, m)
  {
    NoReasonsIffNoCheckFails(StringType, s, v, StringChecks, m);
    assert forall c :: c in StringChecks <==> c in {TypeCheck, ConstCheck, EnumCheck, MinLengthCheck, MaxLengthCheck, PatternCheck};
  }

  /**
   * The numbers that equal `const`, are among `enum`, lie within the
   * inclusive and exclusive bounds and are a multiple of a non-zero
   * `multipleOf`.
   */
  predicate NumberAccepted(kw: Keywords, v: Value)
  {
    && v.Num?
    && (kw.constValue == Undefined || v == kw.constValue)
    && (kw.enumValues.None? || v in kw.enumValues.value)
    && (kw.minimum.None? || v.n >= kw.minimum.value)
    && (kw.exclusiveMinimum.None? || v.n > kw.exclusiveMinimum.value)
    && (kw.maximum.None? || v.n <= kw.maximum.value)
    && (kw.exclusiveMaximum.None? || v.n < kw.exclusiveMaximum.value)
    && (kw.multipleOf.None? || kw.multipleOf.value == 0.0 || IsMultipleOf(v.n, kw.multipleOf.value))
  }

  /** `validateNumber` accepts exactly the values its keywords accept. */
  lemma NumberValidIff(s: Schema, v: Value, loc: string, path: string, m: Matcher)
    ensures ValidateNumber(s, v, loc, path, m).Valid? <==> NumberAccepted(KeywordsOf(s), v)
  {
    NoReasonsIffNoCheckFails(NumberType, s, v, NumberChecks, m);
    assert forall c :: c in NumberChecks <==>
      c in {TypeCheck, ConstCheck, EnumCheck, MinimumCheck, ExclusiveMinimumCheck, MaximumCheck, ExclusiveMaximumCheck, MultipleOfCheck};
  }

  /** An integer schema accepts what its number checks accept, provided it has no fractional part. */
  lemma IntegerValidIff(s: Schema, v: Value, loc: string, path: string, m: Matcher)
    ensures ValidateInteger(s, v, loc, path, m).Valid? <==>
      v.Num? && IsIntegral(v.n) && ValidateNumber(s, v, loc, path, m).Valid?
  {
  }

  /** `S.integer()` with no other keyword accepts exactly the integral numbers. */
  lemma PlainIntegerSchemaAcceptsExactlyIntegers(v: Value, loc: string, path: string, m: Matcher)
    requires v != Undefined
    ensures var s := Node(NoKeywords.(jsonType := Some(Single(IntegerType))));
      Validate(s, v, loc, path, m).Valid? <==> v.Num? && IsIntegral(v.n)
  {
    var s := Node(NoKeywords.(jsonType := Some(Single(IntegerType))));
    assert Validate(s, v, loc, path, m) == ValidateInteger(s, v, loc, path, m);
    IntegerValidIff(s, v, loc, path, m);
    NumberValidIff(s, v, loc, path, m);
  }

  // ---------------------------------------------------------------------------
  // The dispatcher
  // ---------------------------------------------------------------------------

  /**
   * For a defined value, a single `type` name hands the whole decision to
   * the validator of that type.
   */
  lemma SingleTypeDispatch(s: Schema, t: JsonType, v: Value, loc: string, path: string, m: Matcher)
    requires s.Node? && s.kw.jsonType == Some(Single(t)) && v != Undefined
    ensures t == StringType ==> Validate(s, v, loc, path, m) == ValidateString(s, v, loc, path, m)
    ensures t == NullType ==> Validate(s, v, loc, path, m) == ValidateNull(s, v, loc, path)
    ensures t == NumberType ==> Validate(s, v, loc, path, m) == ValidateNumber(s, v, loc, path, m)
    ensures t == IntegerType ==> Validate(s, v, loc, path, m) == ValidateInteger(s, v, loc, path, m)
    ensures t == BooleanType ==> Validate(s, v, loc, path, m) == ValidateBoolean(s, v, loc, path)
    ensures t == ObjectType ==> Validate(s, v, loc, path, m) == ValidateObject(s, v, loc, path, m)
    ensures t == ArrayType ==> Validate(s, v, loc, path, m) == ValidateArray(s, v, loc, path, m)
  {
  }

  /** A defined value passes a `type: "string"` schema exactly when its string keywords hold. */
  lemma StringTypedValidIff(s: Schema, v: Value, loc: string, path: string, m: Matcher)
    requires s.Node? && s.kw.jsonType == Some(Single(StringType)) && v != Undefined
    ensures Validate(s, v, loc, path, m).Valid? <==> StringAccepted(s.kw, v, m)
  {
    SingleTypeDispatch(s, StringType, v, loc, path, m);
    StringValidIff(s, v, loc, path, m);
  }

  /** A defined value passes a `type: "number"` schema exactly when its number keywords hold. */
  lemma NumberTypedValidIff(s: Schema, v: Value, loc: string, path: string, m: Matcher)
    requires s.Node? && s.kw.jsonType == Some(Single(NumberType)) && v != Undefined
    ensures Validate(s, v, loc, path, m).Valid? <==> NumberAccepted(s.kw, v)
  {
    SingleTypeDispatch(s, NumberType, v, loc, path, m);
    NumberValidIff(s, v, loc, path, m);
  }

  /**
   * A defined value passes a `type: "integer"` schema exactly when it is an
   * integral number that the number keywords accept.
   */
  lemma IntegerTypedValidIff(s: Schema, v: Value, loc: string, path: string, m: Matcher)
    requires s.Node? && s.kw.jsonType == Some(Single(IntegerType)) && v != Undefined
    ensures Validate(s, v, loc, path, m).Valid? <==> v.Num? && IsIntegral(v.n) && NumberAccepted(s.kw, v)
  {
    SingleTypeDispatch(s, IntegerType, v, loc, path, m);
    IntegerValidIff(s, v, loc, path, m);
    NumberValidIff(s, v, loc, path, m);
  }

  /**
   * `undefined` takes the schema's default; without one it is rejected. The
   * boolean schemas are read first: `true` accepts it, `false` rejects it.
   */
  lemma UndefinedTakesDefault(s: Schema, loc: string, path: string, m: Matcher)
    ensures s == BoolSchema(true) ==> Validate(s, Undefined, loc, path, m) == Valid(Undefined)
    ensures s == BoolSchema(false) ==> Validate(s, Undefined, loc, path, m) == Invalid([Violation(Undefined, s, FalseSchema, loc, path)])
    ensures s.Node? && s.kw.defaultValue != Undefined ==> Validate(s, Undefined, loc, path, m) == Valid(s.kw.defaultValue)
    ensures s.Node? && s.kw.defaultValue == Undefined ==>
      Validate(s, Undefined, loc, path, m) == Invalid([Violation(Undefined, s, NoDefault, loc, path)])
  {
  }

  /**
   * A schema with no `type` (among them a bare `$ref`, which is not
   * resolved) accepts every defined value unchanged; `true` accepts every
   * value and `false` none.
   */
  lemma UntypedSchemaAcceptsEverything(s: Schema, v: Value, loc: string, path: string, m: Matcher)
    requires v != Undefined
    ensures (s == BoolSchema(true) || (s.Node? && s.kw.jsonType.None?)) ==> Validate(s, v, loc, path, m) == Valid(v)
    ensures s == BoolSchema(false) ==> Validate(s, v, loc, path, m) == Invalid([Violation(v, s, FalseSchema, loc, path)])
  {
  }

  // ---------------------------------------------------------------------------
  // Objects
  // ---------------------------------------------------------------------------

  predicate ObjectTyped(s: Schema)
  {
    s.Node? && s.kw.jsonType == Some(Single(ObjectType))
  }

  /** What the object validator has collected before it looks at the keywords of an object schema. */
  function Prelude(s: Schema, v: Value, loc: string, path: string): ObjectPart
  {
    ObjectPart([], Locate(CommonReasons(ObjectType, s, v), v, s, loc, path))
  }

  /** The object after `properties` and `patternProperties`. */
  function Merged(s: Schema, v: Value, loc: string, path: string, m: Matcher): ObjectPart
    requires v.Obj?
  {
    MergedProperties(s, v, loc, path, m, Prelude(s, v, loc, path))
  }

  /** The object after `additionalProperties`, which is the validator's result. */
  function WithAdditional(s: Schema, v: Value, loc: string, path: string, m: Matcher): ObjectPart
    requires v.Obj?
  {
    var merged := Merged(s, v, loc, path, m);
    AdditionalPropertiesPart(s, v, loc, path, m, ExtraKeys(v, merged), merged)
  }

  /** An object schema validates a defined value through the object validator, starting from the prelude. */
  lemma ObjectDispatch(s: Schema, v: Value, loc: string, path: string, m: Matcher)
    requires ObjectTyped(s) && v != Undefined
    ensures var part := ValidateObjectSchema(s, v, loc, path, m, Prelude(s, v, loc, path));
      Validate(s, v, loc, path, m) == if |part.violations| > 0 then Invalid(part.violations) else Valid(Obj(part.fields))
  {
    assert Validate(s, v, loc, path, m) == ValidateTyped(s, ObjectType, v, loc, path, m);
    assert ValidateTyped(s, ObjectType, v, loc, path, m) == ValidateObject(s, v, loc, path, m);
  }

  /** An object schema's result is the object after `additionalProperties`, and it reports every violation found there. */
  lemma ObjectResult(s: Schema, v: Value, loc: string, path: string, m: Matcher)
    requires ObjectTyped(s) && v.Obj?
    ensures var r := Validate(s, v, loc, path, m);
      && (r.Valid? ==> r.result == Obj(WithAdditional(s, v, loc, path, m).fields))
      && (r.Invalid? <==> |ValidateObjectSchema(s, v, loc, path, m, Prelude(s, v, loc, path)).violations| > 0)
      && multiset(WithAdditional(s, v, loc, path, m).violations) <= multiset(Violations(r))
  {
    ObjectDispatch(s, v, loc, path, m);
  }

  /**
   * An object with more own keys than `maxProperties` allows fails, and the
   * excess is the last violation reported, at the schema's own location.
   */
  lemma TooManyPropertiesReported(s: Schema, v: Value, loc: string, path: string, m: Matcher, n: nat)
    requires ObjectTyped(s) && v.Obj?
    requires s.kw.maxProperties == Some(n) && |Keys(v.fields)| > n
    ensures var r := Validate(s, v, loc, path, m);
      r.Invalid? && r.violations[|r.violations| - 1] == Violation(v, s, TooManyProperties(n), loc, path)
  {
    ObjectDispatch(s, v, loc, path, m);
    var counts := CountViolations(s, v, loc, path);
    assert Violation(v, s, TooManyProperties(n), loc, path) in counts;
    assert counts[|counts| - 1] == Violation(v, s, TooManyProperties(n), loc, path);
  }

  /**
   * An object with fewer own keys than a non-zero `minProperties` fails,
   * and the shortfall is among the violations, at the schema's own location.
   */
  lemma TooFewPropertiesReported(s: Schema, v: Value, loc: string, path: string, m: Matcher, n: nat)
    requires ObjectTyped(s) && v.Obj?
    requires s.kw.minProperties == Some(n) && n > 0 && |Keys(v.fields)| < n
    ensures var r := Validate(s, v, loc, path, m);
      r.Invalid? && Violation(v, s, TooFewProperties(n), loc, path) in r.violations
  {
    ObjectDispatch(s, v, loc, path, m);
    assert Violation(v, s, TooFewProperties(n), loc, path) in CountViolations(s, v, loc, path);
  }

  /** `ps` written out: no key is declared twice. */
  lemma DistinctKeysAt<V>(kvs: seq<(string, V)>, i: nat, j: nat)
    requires DistinctKeys(kvs) && i < |kvs| && j < |kvs| && kvs[i].0 == kvs[j].0
    ensures i == j
  {
  }

  /**
   * A declared property that is kept and that no pattern keeps holds, in a
   * valid result, exactly its own validation's result (`undefined` when that
   * failed).
   */
  lemma DeclaredPropertyHoldsChildResult(s: Schema, v: Value, loc: string, path: string, m: Matcher, j: nat)
    requires ObjectTyped(s) && v.Obj? && DistinctKeys(PropertyEntries(s)) && j < |PropertyEntries(s)|
    requires PropertyKept(s, v, loc, path, m, j)
    requires !Claimed(s, v, m, PropertyEntries(s)[j].0)
    requires Validate(s, v, loc, path, m).Valid?
    ensures Find(Validate(s, v, loc, path, m).result.fields, PropertyEntries(s)[j].0)
         == Some(Resolved(PropertyValidation(s, v, loc, path, m, j)))
  {
    var key := PropertyEntries(s)[j].0;
    var merged := Merged(s, v, loc, path, m);
    MergedFields(s, v, loc, path, m, Prelude(s, v, loc, path));
    assert Find(merged.fields, key) == Some(Resolved(PropertyValidation(s, v, loc, path, m, j)));
    assert key !in ExtraKeys(v, merged);
    ObjectResult(s, v, loc, path, m);
  }

  /** A property absent from the value takes its schema's default. */
  lemma AbsentPropertyTakesDefault(s: Schema, v: Value, loc: string, path: string, m: Matcher, j: nat)
    requires ObjectTyped(s) && v.Obj? && DistinctKeys(PropertyEntries(s)) && j < |PropertyEntries(s)|
    requires PropertyEntries(s)[j].0 !in Keys(v.fields)
    requires PropertyEntries(s)[j].1.Node? && PropertyEntries(s)[j].1.kw.defaultValue != Undefined
    requires Validate(s, v, loc, path, m).Valid?
    ensures Find(Validate(s, v, loc, path, m).result.fields, PropertyEntries(s)[j].0)
         == Some(PropertyEntries(s)[j].1.kw.defaultValue)
  {
    DeclaredPropertyHoldsChildResult(s, v, loc, path, m, j);
  }

  /** Every violation of a kept declared property from entry `i` on is among those `properties` reports from there. */
  lemma {:induction false} PropertyViolationsInclude(s: Schema, v: Value, loc: string, path: string, m: Matcher, i: nat, j: nat)
    requires v.Obj? && i <= j < |PropertyEntries(s)| && PropertyKept(s, v, loc, path, m, j)
    ensures forall e :: e in Violations(PropertyValidation(s, v, loc, path, m, j)) ==> e in PropertyViolations(s, v, loc, path, m, i)
    decreases j - i
  {
    var here := if PropertyKept(s, v, loc, path, m, i) then Violations(PropertyValidation(s, v, loc, path, m, i)) else [];
    assert PropertyViolations(s, v, loc, path, m, i) == here + PropertyViolations(s, v, loc, path, m, i + 1);
    if j > i {
      PropertyViolationsInclude(s, v, loc, path, m, i + 1, j);
    }
  }

  /**
   * Each violation of a kept declared property is reported by the object,
   * at `<loc>/properties/<key>` and `<path>/<key>`; so a kept property that
   * reports a violation makes the object invalid.
   */
  lemma KeptPropertyViolationReported(s: Schema, v: Value, loc: string, path: string, m: Matcher, j: nat)
    requires ObjectTyped(s) && v.Obj? && j < |PropertyEntries(s)| && PropertyKept(s, v, loc, path, m, j)
    ensures var key := PropertyEntries(s)[j].0;
      forall e :: e in Violations(PropertyValidation(s, v, loc, path, m, j)) ==>
        && e in Violations(Validate(s, v, loc, path, m))
        && Under(e, loc + "/properties/" + key, path + "/" + key)
    ensures Violations(PropertyValidation(s, v, loc, path, m, j)) != [] ==> Validate(s, v, loc, path, m).Invalid?
  {
    var child := Violations(PropertyValidation(s, v, loc, path, m, j));
    forall e | e in child
      ensures e in Violations(Validate(s, v, loc, path, m))
    {
      PropertyViolationsInclude(s, v, loc, path, m, 0, j);
      MergedViolations(s, v, loc, path, m, Prelude(s, v, loc, path));
      assert e in Merged(s, v, loc, path, m).violations;
      MergedViolationReported(s, v, loc, path, m, e);
    }
    if child != [] {
      assert child[0] in child;
    }
  }

  /** A violation the merges report is reported by the object. */
  lemma MergedViolationReported(s: Schema, v: Value, loc: string, path: string, m: Matcher, e: Violation)
    requires ObjectTyped(s) && v.Obj? && e in Merged(s, v, loc, path, m).violations
    ensures e in Violations(Validate(s, v, loc, path, m))
  {
    var cur := Prelude(s, v, loc, path);
    var merged := Merged(s, v, loc, path, m);
    var withAdditional := WithAdditional(s, v, loc, path, m);
    var part := ValidateObjectSchema(s, v, loc, path, m, cur);
    ObjectDispatch(s, v, loc, path, m);
    PrefixMember(merged.violations, withAdditional.violations, e);
    assert part.violations == cur.violations + MissingViolation(s, v, loc, path) + withAdditional.violations
                              + NameViolations(s, v, loc, path, m) + CountViolations(s, v, loc, path);
  }

  lemma PrefixMember<T>(a: seq<T>, b: seq<T>, x: T)
    requires a <= b && x in a
    ensures x in b
  {
    var i :| 0 <= i < |a| && a[i] == x;
    assert b[i] == x;
  }

  /**
   * A property whose schema has a union `type` and whose value is truthy is
   * kept as `undefined` and adds no violation.
   */
  lemma UnionTypedPropertyBecomesUndefined(s: Schema, v: Value, loc: string, path: string, m: Matcher, j: nat)
    requires ObjectTyped(s) && v.Obj? && DistinctKeys(PropertyEntries(s)) && j < |PropertyEntries(s)|
    requires IsUnionTyped(PropertyEntries(s)[j].1) && !Falsy(Get(v.fields, PropertyEntries(s)[j].0))
    requires !Claimed(s, v, m, PropertyEntries(s)[j].0)
    ensures PropertyValidation(s, v, loc, path, m, j) == Invalid([])
    ensures Validate(s, v, loc, path, m).Valid? ==>
      Find(Validate(s, v, loc, path, m).result.fields, PropertyEntries(s)[j].0) == Some(Undefined)
  {
    if Validate(s, v, loc, path, m).Valid? {
      DeclaredPropertyHoldsChildResult(s, v, loc, path, m, j);
    }
  }

  /**
   * A key of the value is extra exactly when it is defined, no kept declared
   * property names it and no pattern keeps it. A key that a pattern matches
   * but that is not the last key that pattern matches is extra too.
   */
  lemma UnclaimedKeyIsExtra(s: Schema, v: Value, loc: string, path: string, m: Matcher, k: string)
    requires v.Obj?
    ensures k in ExtraKeys(v, Merged(s, v, loc, path, m)) <==>
      Get(v.fields, k) != Undefined && NoneKept(s, v, loc, path, m, 0, k) && !Claimed(s, v, m, k)
  {
    var cur := Prelude(s, v, loc, path);
    var merged := Merged(s, v, loc, path, m);
    MergedFields(s, v, loc, path, m, cur);
    if Get(v.fields, k) != Undefined && NoneKept(s, v, loc, path, m, 0, k) && !Claimed(s, v, m, k) {
      assert Find(merged.fields, k) == None;
      assert k in Keys(v.fields);
    }
    if k in ExtraKeys(v, merged) {
      assert k in Keys(v.fields);
      if !NoneKept(s, v, loc, path, m, 0, k) {
        var j :| 0 <= j < |PropertyEntries(s)| && PropertyEntries(s)[j].0 == k && PropertyKept(s, v, loc, path, m, j);
        KeptPropertyIsKey(s, v, loc, path, m, 0, cur, j);
      }
      if Claimed(s, v, m, k) {
        LastPickExists(s, v, m, 0, k);
      }
    }
  }

  /** Every kept declared property from entry `i` on is a key of what `PropertiesPart` builds. */
  lemma {:induction false} KeptPropertyIsKey(s: Schema, v: Value, loc: string, path: string, m: Matcher, i: nat, acc: ObjectPart, j: nat)
    requires v.Obj? && i <= j < |PropertyEntries(s)| && PropertyKept(s, v, loc, path, m, j)
    ensures PropertyEntries(s)[j].0 in Keys(PropertiesPart(s, v, loc, path, m, i, acc).fields)
    decreases j - i
  {
    var key := PropertyEntries(s)[i].0;
    var validation := PropertyValidation(s, v, loc, path, m, i);
    var step := if PropertyKept(s, v, loc, path, m, i) then Absorb(acc, key, validation) else acc;
    assert PropertiesPart(s, v, loc, path, m, i, acc) == PropertiesPart(s, v, loc, path, m, i + 1, step);
    if j == i {
      assert key in Keys(step.fields);
    } else {
      KeptPropertyIsKey(s, v, loc, path, m, i + 1, step, j);
    }
  }

  /** A key that some pattern from `i` on keeps has a last pattern keeping it. */
  lemma {:induction false} LastPickExists(s: Schema, v: Value, m: Matcher, i: nat, x: string)
    requires v.Obj? && PickedFrom(s, v, m, i, x)
    ensures exists p :: i <= p && LastPick(s, v, m, p, x)
    decreases |PatternEntries(s)| - i
  {
    if PickedFrom(s, v, m, i + 1, x) {
      LastPickExists(s, v, m, i + 1, x);
    } else {
      var p :| i <= p < |PatternEntries(s)| && Picks(s, v, m, p, x);
      assert LastPick(s, v, m, p, x);
    }
  }

  /**
   * A defined key of the value that no kept declared property and no pattern
   * keeps is copied through unchanged when `additionalProperties` is absent
   * or `true`.
   */
  lemma UnclaimedKeyPassesThrough(s: Schema, v: Value, loc: string, path: string, m: Matcher, k: string)
    requires ObjectTyped(s) && v.Obj?
    requires Get(v.fields, k) != Undefined
    requires NoneKept(s, v, loc, path, m, 0, k) && !Claimed(s, v, m, k)
    requires s.kw.additionalProperties in {None, Some(BoolSchema(true))} && Validate(s, v, loc, path, m).Valid?
    ensures Find(Validate(s, v, loc, path, m).result.fields, k) == Some(Get(v.fields, k))
  {
    UnclaimedKeyIsExtra(s, v, loc, path, m, k);
    ObjectResult(s, v, loc, path, m);
  }

  /**
   * A defined key of the value that no kept declared property and no pattern
   * keeps is reported, at `<loc>/additionalProperties` and the object's own
   * path, when `additionalProperties` is `false`.
   */
  lemma UnclaimedKeyIsRejected(s: Schema, v: Value, loc: string, path: string, m: Matcher, k: string)
    requires ObjectTyped(s) && v.Obj?
    requires Get(v.fields, k) != Undefined
    requires NoneKept(s, v, loc, path, m, 0, k) && !Claimed(s, v, m, k)
    requires s.kw.additionalProperties == Some(BoolSchema(false))
    ensures var r := Validate(s, v, loc, path, m);
      r.Invalid? && exists e :: e in r.violations && e.reason.AdditionalProperties? && k in e.reason.names
                          && e.schemaLocation == loc + "/additionalProperties" && e.valuePath == path
  {
    UnclaimedKeyIsExtra(s, v, loc, path, m, k);
    var extra := ExtraKeys(v, Merged(s, v, loc, path, m));
    var e := Violation(v, BoolSchema(false), AdditionalProperties(extra), loc + "/additionalProperties", path);
    assert e in multiset(WithAdditional(s, v, loc, path, m).violations);
    ObjectResult(s, v, loc, path, m);
    assert e in multiset(Violations(Validate(s, v, loc, path, m)));
  }

  /**
   * With nothing missing and no `propertyNames`, `minProperties` or
   * `maxProperties`, an object schema reports what it was given followed by
   * what the property merges and `additionalProperties` found.
   */
  lemma PlainObjectSchema(s: Schema, v: Value, loc: string, path: string, m: Matcher, cur: ObjectPart)
    requires v.Obj? && MissingNames(s, v.fields) == []
    requires KeywordsOf(s).propertyNames.None? && KeywordsOf(s).minProperties.None? && KeywordsOf(s).maxProperties.None?
    ensures var merged := MergedProperties(s, v, loc, path, m, cur);
      var withAdditional := AdditionalPropertiesPart(s, v, loc, path, m, ExtraKeys(v, merged), merged);
      ValidateObjectSchema(s, v, loc, path, m, cur) == ObjectPart(withAdditional.fields, cur.violations + withAdditional.violations)
  {
    var merged := MergedProperties(s, v, loc, path, m, cur);
    var withAdditional := AdditionalPropertiesPart(s, v, loc, path, m, ExtraKeys(v, merged), merged);
    assert MissingViolation(s, v, loc, path) == [];
    assert NameViolations(s, v, loc, path, m) == [];
    assert CountViolations(s, v, loc, path) == [];
    assert cur.violations + [] + withAdditional.violations + [] + [] == cur.violations + withAdditional.violations;
  }

  /**
   * Against `additionalProperties: false`, an object whose only fault is
   * keys nothing claimed gets exactly one violation, at
   * `<loc>/additionalProperties` and the object's own path, naming them all.
   */
  lemma ExtraKeysAreTheOnlyViolation(s: Schema, v: Value, loc: string, path: string, m: Matcher)
    requires ObjectTyped(s) && v.Obj?
    requires s.kw.additionalProperties == Some(BoolSchema(false))
    requires s.kw.propertyNames.None? && s.kw.minProperties.None? && s.kw.maxProperties.None?
    requires MissingNames(s, v.fields) == []
    requires Merged(s, v, loc, path, m).violations == []
    requires |ExtraKeys(v, Merged(s, v, loc, path, m))| > 0
    ensures Validate(s, v, loc, path, m)
         == Invalid([Violation(v, BoolSchema(false), AdditionalProperties(ExtraKeys(v, Merged(s, v, loc, path, m))), loc + "/additionalProperties", path)])
  {
    var cur := Prelude(s, v, loc, path);
    assert cur.violations == [];
    PlainObjectSchema(s, v, loc, path, m, cur);
    ObjectDispatch(s, v, loc, path, m);
  }

  /** `{type: 'object', patternProperties: {'^x': {type: 'string'}}, additionalProperties: false}`. */
  function ClosedPatternSchema(): Schema
  {
    Node(NoKeywords.(jsonType := Some(Single(ObjectType)),
                     patternProperties := Some(SchemaMap([("^x", Node(NoKeywords.(jsonType := Some(Single(StringType)))))])),
                     additionalProperties := Some(BoolSchema(false))))
  }

  /**
   * A pattern keeps only the last key it matches: of `{x1: 'a', x2: 'b'}`,
   * where `^x` matches both keys, `x2` is kept and `x1` is reported as an
   * additional property.
   */
  lemma EarlierPatternMatchIsAdditional(loc: string, path: string, m: Matcher)
    requires m("x1", "^x") && m("x2", "^x")
    ensures var r := Validate(ClosedPatternSchema(), Obj([("x1", Str("a")), ("x2", Str("b"))]), loc, path, m);
      r.Invalid? && exists e :: e in r.violations && e.reason.AdditionalProperties? && "x1" in e.reason.names
  {
    var s := ClosedPatternSchema();
    var v := Obj([("x1", Str("a")), ("x2", Str("b"))]);
    assert Keys(v.fields) == ["x1", "x2"];
    assert LastMatch(s, v, m, 0, 1) == Some("x2");
    assert LastMatch(s, v, m, 0, 0) == Some("x2");
    assert !Claimed(s, v, m, "x1");
    assert Get(v.fields, "x1") == Str("a");
    UnclaimedKeyIsRejected(s, v, loc, path, m, "x1");
  }

  /** A defined key the schema does not declare and no pattern keeps is additional. */
  lemma UndeclaredKeyIsAdditional(s: Schema, v: Value, loc: string, path: string, m: Matcher, k: string)
    requires ObjectTyped(s) && v.Obj?
    requires Get(v.fields, k) != Undefined && k !in Keys(PropertyEntries(s)) && !Claimed(s, v, m, k)
    ensures s.kw.additionalProperties in {None, Some(BoolSchema(true))} && Validate(s, v, loc, path, m).Valid? ==>
      Find(Validate(s, v, loc, path, m).result.fields, k) == Some(Get(v.fields, k))
    ensures s.kw.additionalProperties == Some(BoolSchema(false)) ==> Validate(s, v, loc, path, m).Invalid?
  {
    forall j | 0 <= j < |PropertyEntries(s)| ensures PropertyEntries(s)[j].0 != k {
      KeysAt(PropertyEntries(s));
    }
    if s.kw.additionalProperties == Some(BoolSchema(false)) {
      UnclaimedKeyIsRejected(s, v, loc, path, m, k);
    } else if s.kw.additionalProperties in {None, Some(BoolSchema(true))} && Validate(s, v, loc, path, m).Valid? {
      UnclaimedKeyPassesThrough(s, v, loc, path, m, k);
    }
  }

  /**
   * A declared property whose value is falsy but defined (`null`, `false`,
   * `0`, `""`) and fails its schema is dropped together with its violations
   * and then treated as an additional property: with `additionalProperties`
   * absent or `true` the failing value is passed through unchanged.
   */
  lemma InvalidFalsyPropertyIsAdditional(s: Schema, v: Value, loc: string, path: string, m: Matcher, j: nat)
    requires ObjectTyped(s) && v.Obj? && DistinctKeys(PropertyEntries(s)) && j < |PropertyEntries(s)|
    requires PropertyValidation(s, v, loc, path, m, j).Invalid?
    requires Falsy(Get(v.fields, PropertyEntries(s)[j].0)) && Get(v.fields, PropertyEntries(s)[j].0) != Undefined
    requires !Claimed(s, v, m, PropertyEntries(s)[j].0)
    ensures s.kw.additionalProperties in {None, Some(BoolSchema(true))} && Validate(s, v, loc, path, m).Valid? ==>
      Find(Validate(s, v, loc, path, m).result.fields, PropertyEntries(s)[j].0) == Some(Get(v.fields, PropertyEntries(s)[j].0))
    ensures s.kw.additionalProperties == Some(BoolSchema(false)) ==> Validate(s, v, loc, path, m).Invalid?
  {
    var k := PropertyEntries(s)[j].0;
    forall i | 0 <= i < |PropertyEntries(s)| && PropertyEntries(s)[i].0 == k
      ensures !PropertyKept(s, v, loc, path, m, i)
    {
      DistinctKeysAt(PropertyEntries(s), i, j);
    }
    if s.kw.additionalProperties == Some(BoolSchema(false)) {
      UnclaimedKeyIsRejected(s, v, loc, path, m, k);
    } else if s.kw.additionalProperties in {None, Some(BoolSchema(true))} && Validate(s, v, loc, path, m).Valid? {
      UnclaimedKeyPassesThrough(s, v, loc, path, m, k);
    }
  }

  /**
   * A `required` name whose value is missing or `undefined` is reported
   * right after the type, `const` and `enum` violations; so a valid object
   * defines every required name.
   */
  lemma RequiredPropertyMissing(s: Schema, v: Value, loc: string, path: string, m: Matcher, k: string)
    requires ObjectTyped(s) && v.Obj? && s.kw.required.Some? && k in s.kw.required.value
    requires Get(v.fields, k) == Undefined
    ensures k in MissingNames(s, v.fields)
    ensures var r := Validate(s, v, loc, path, m);
      && r.Invalid?
      && |r.violations| > |Prelude(s, v, loc, path).violations|
      && r.violations[|Prelude(s, v, loc, path).violations|] == Violation(v, s, MissingRequired(MissingNames(s, v.fields)), loc, path)
  {
    ObjectDispatch(s, v, loc, path, m);
    assert |MissingNames(s, v.fields)| > 0;
  }

  /**
   * The object validator collects the type, `const` and `enum` violations
   * before it reads the keywords, and the property merges start again from
   * them: an object that differs from the schema's `const` is reported as
   * such twice.
   */
  lemma ObjectConstViolationReportedTwice(s: Schema, v: Value, loc: string, path: string, m: Matcher)
    requires ObjectTyped(s) && v.Obj? && s.kw.constValue != Undefined && v != s.kw.constValue
    ensures var r := Validate(s, v, loc, path, m);
      r.Invalid? && multiset(r.violations)[Violation(v, s, NotExactly(AsJson, s.kw.constValue), loc, path)] >= 2
  {
    var e := Violation(v, s, NotExactly(AsJson, s.kw.constValue), loc, path);
    var cur := Prelude(s, v, loc, path);
    var reasons := CommonReasons(ObjectType, s, v);
    var i := if ValidateType(v, ObjectType).Some? then 1 else 0;
    assert reasons[i] == NotExactly(AsJson, s.kw.constValue);
    assert cur.violations[i] == e;
    assert e in multiset(cur.violations);
    ObjectDispatch(s, v, loc, path, m);
    var part := ValidateObjectSchema(s, v, loc, path, m, cur);
    assert multiset(part.violations)[e] >= 2;
  }

  /** The property names are reported exactly when some key fails the `propertyNames` schema as a string. */
  lemma {:induction false} PropertyNamesIff(names: Schema, keys: seq<string>, loc: string, path: string, m: Matcher)
    ensures PropertyNameViolations(names, keys, loc, path, m) == [] <==>
      forall i :: 0 <= i < |keys| ==> ValidateString(names, Str(keys[i]), loc + "/propertyNames", path + "/" + keys[i], m).Valid?
  {
    if |keys| > 0 {
      PropertyNamesIff(names, keys[1..], loc, path, m);
      assert forall i :: 1 <= i < |keys| ==> keys[i] == keys[1..][i - 1];
    }
  }

  /** Keys are checked one after another: the violations for `a + b` are those for `a` followed by those for `b`. */
  lemma {:induction false} PropertyNamesConcat(names: Schema, a: seq<string>, b: seq<string>, loc: string, path: string, m: Matcher)
    ensures PropertyNameViolations(names, a + b, loc, path, m)
         == PropertyNameViolations(names, a, loc, path, m) + PropertyNameViolations(names, b, loc, path, m)
    decreases |a|
  {
    if |a| == 0 {
      assert a + b == b;
    } else {
      var here := Violations(ValidateString(names, Str(a[0]), loc + "/propertyNames", path + "/" + a[0], m));
      assert (a + b)[0] == a[0] && (a + b)[1..] == a[1..] + b;
      assert PropertyNameViolations(names, a + b, loc, path, m) == here + PropertyNameViolations(names, a[1..] + b, loc, path, m);
      assert PropertyNameViolations(names, a, loc, path, m) == here + PropertyNameViolations(names, a[1..], loc, path, m);
      PropertyNamesConcat(names, a[1..], b, loc, path, m);
      ConcatAssoc(here, PropertyNameViolations(names, a[1..], loc, path, m), PropertyNameViolations(names, b, loc, path, m));
    }
  }

  /** A single key contributes exactly its own string validation's violations, at `<path>/<key>`. */
  lemma PropertyNameSingle(names: Schema, key: string, loc: string, path: string, m: Matcher)
    ensures PropertyNameViolations(names, [key], loc, path, m)
         == Violations(ValidateString(names, Str(key), loc + "/propertyNames", path + "/" + key, m))
  {
    assert PropertyNameViolations(names, [key][1..], loc, path, m) == [];
  }

  /**
   * A boolean `propertyNames` schema is read as a string schema without
   * keywords: even `false` accepts every key.
   */
  lemma BooleanPropertyNamesAcceptEveryKey(b: bool, keys: seq<string>, loc: string, path: string, m: Matcher)
    ensures PropertyNameViolations(BoolSchema(b), keys, loc, path, m) == []
  {
    PropertyNamesIff(BoolSchema(b), keys, loc, path, m);
    forall i | 0 <= i < |keys|
      ensures ValidateString(BoolSchema(b), Str(keys[i]), loc + "/propertyNames", path + "/" + keys[i], m).Valid?
    {
      StringValidIff(BoolSchema(b), Str(keys[i]), loc + "/propertyNames", path + "/" + keys[i], m);
    }
  }

  // ---------------------------------------------------------------------------
  // Arrays
  // ---------------------------------------------------------------------------

  /** List mode: no element from `i` on reports a violation. */
  predicate ElementsPass(s: Schema, v: Value, loc: string, path: string, m: Matcher, i: nat)
    requires v.Arr? && i <= |v.elems| && KeywordsOf(s).items.Some? && KeywordsOf(s).items.value.ListItems?
  {
    forall j :: i <= j < |v.elems| ==> Violations(ListValidation(s, v, loc, path, m, j)) == []
  }

  /** List mode: no element violation from index `i` on exactly when no element from there fails. */
  lemma ListViolationsEmptyIff(s: Schema, v: Value, loc: string, path: string, m: Matcher, i: nat)
    requires v.Arr? && i <= |v.elems| && KeywordsOf(s).items.Some? && KeywordsOf(s).items.value.ListItems?
    ensures ListViolations(s, v, loc, path, m, i) == [] <==> ElementsPass(s, v, loc, path, m, i)
  {
    if ElementsPass(s, v, loc, path, m, i) {
      ListViolationsNoneFail(s, v, loc, path, m, i);
    }
    if ListViolations(s, v, loc, path, m, i) == [] {
      forall j | i <= j < |v.elems| ensures Violations(ListValidation(s, v, loc, path, m, j)) == [] {
        ListViolationsInclude(s, v, loc, path, m, i, j);
      }
    }
  }

  /** List mode: when no element from `i` on fails, nothing is reported from there. */
  lemma {:induction false} ListViolationsNoneFail(s: Schema, v: Value, loc: string, path: string, m: Matcher, i: nat)
    requires v.Arr? && i <= |v.elems| && KeywordsOf(s).items.Some? && KeywordsOf(s).items.value.ListItems?
    requires ElementsPass(s, v, loc, path, m, i)
    ensures ListViolations(s, v, loc, path, m, i) == []
    decreases |v.elems| - i
  {
    if i < |v.elems| {
      ListViolationsNoneFail(s, v, loc, path, m, i + 1);
      assert Violations(ListValidation(s, v, loc, path, m, i)) == [];
      assert ListViolations(s, v, loc, path, m, i) == [] + [];
    }
  }

  /** List mode: every violation of element `j` is among those from index `i` on. */
  lemma {:induction false} ListViolationsInclude(s: Schema, v: Value, loc: string, path: string, m: Matcher, i: nat, j: nat)
    requires v.Arr? && i <= j < |v.elems| && KeywordsOf(s).items.Some? && KeywordsOf(s).items.value.ListItems?
    ensures forall e :: e in Violations(ListValidation(s, v, loc, path, m, j)) ==> e in ListViolations(s, v, loc, path, m, i)
    ensures ListViolations(s, v, loc, path, m, i) == [] ==> Violations(ListValidation(s, v, loc, path, m, j)) == []
    decreases j - i
  {
    assert ListViolations(s, v, loc, path, m, i)
        == Violations(ListValidation(s, v, loc, path, m, i)) + ListViolations(s, v, loc, path, m, i + 1);
    if i < j {
      ListViolationsInclude(s, v, loc, path, m, i + 1, j);
    }
  }

  /** Tuple mode: no position from `i` on reports a violation. */
  predicate PositionsPass(s: Schema, v: Value, loc: string, path: string, m: Matcher, i: nat)
    requires v.Arr? && i <= |TupleSchemas(s)| <= |v.elems|
  {
    forall j :: i <= j < |TupleSchemas(s)| ==> Violations(TupleValidation(s, v, loc, path, m, j)) == []
  }

  /** Tuple mode: no position violation from `i` on exactly when no position from there fails. */
  lemma TupleViolationsEmptyIff(s: Schema, v: Value, loc: string, path: string, m: Matcher, i: nat)
    requires v.Arr? && i <= |TupleSchemas(s)| <= |v.elems|
    ensures TupleViolations(s, v, loc, path, m, i) == [] <==> PositionsPass(s, v, loc, path, m, i)
  {
    if PositionsPass(s, v, loc, path, m, i) {
      TupleViolationsNoneFail(s, v, loc, path, m, i);
    }
    if TupleViolations(s, v, loc, path, m, i) == [] {
      forall j | i <= j < |TupleSchemas(s)| ensures Violations(TupleValidation(s, v, loc, path, m, j)) == [] {
        TupleViolationsInclude(s, v, loc, path, m, i, j);
      }
    }
  }

  /** Tuple mode: when no position from `i` on fails, nothing is reported from there. */
  lemma {:induction false} TupleViolationsNoneFail(s: Schema, v: Value, loc: string, path: string, m: Matcher, i: nat)
    requires v.Arr? && i <= |TupleSchemas(s)| <= |v.elems|
    requires PositionsPass(s, v, loc, path, m, i)
    ensures TupleViolations(s, v, loc, path, m, i) == []
    decreases |TupleSchemas(s)| - i
  {
    if i < |TupleSchemas(s)| {
      TupleViolationsNoneFail(s, v, loc, path, m, i + 1);
      assert Violations(TupleValidation(s, v, loc, path, m, i)) == [];
      assert TupleViolations(s, v, loc, path, m, i) == [] + [];
    }
  }

  /** Tuple mode: every violation of position `j` is among those from position `i` on. */
  lemma {:induction false} TupleViolationsInclude(s: Schema, v: Value, loc: string, path: string, m: Matcher, i: nat, j: nat)
    requires v.Arr? && i <= j < |TupleSchemas(s)| <= |v.elems|
    ensures forall e :: e in Violations(TupleValidation(s, v, loc, path, m, j)) ==> e in TupleViolations(s, v, loc, path, m, i)
    ensures TupleViolations(s, v, loc, path, m, i) == [] ==> Violations(TupleValidation(s, v, loc, path, m, j)) == []
    decreases j - i
  {
    assert TupleViolations(s, v, loc, path, m, i)
        == Violations(TupleValidation(s, v, loc, path, m, i)) + TupleViolations(s, v, loc, path, m, i + 1);
    if i < j {
      TupleViolationsInclude(s, v, loc, path, m, i + 1, j);
    }
  }

  /** A child result with no violations is valid, or comes from a union `type`. */
  lemma NoViolationsMeansValidOrUnion(c: Schema, e: Value, loc: string, path: string, m: Matcher)
    requires Violations(Validate(c, e, loc, path, m)) == []
    ensures Validate(c, e, loc, path, m).Valid? || IsUnionTyped(c)
  {
  }

  /**
   * List mode: an array passes exactly when it has no type, `const` or
   * `enum` violation and no element reports a violation; then every element
   * passed, except under a union `type`, which fails silently.
   */
  lemma ListArrayValidIff(s: Schema, v: Value, loc: string, path: string, m: Matcher)
    requires v.Arr? && KeywordsOf(s).items.Some? && KeywordsOf(s).items.value.ListItems?
    ensures ValidateArray(s, v, loc, path, m).Valid? <==> CommonReasons(ArrayType, s, v) == [] && ElementsPass(s, v, loc, path, m, 0)
    ensures ValidateArray(s, v, loc, path, m).Valid? ==>
      forall j :: 0 <= j < |v.elems| ==> ListValidation(s, v, loc, path, m, j).Valid? || IsUnionTyped(KeywordsOf(s).items.value.schema)
  {
    var r := ValidateArray(s, v, loc, path, m);
    var prelude := Locate(CommonReasons(ArrayType, s, v), v, s, loc, path);
    var elements := ListViolations(s, v, loc, path, m, 0);
    ArrayViolations(s, v, loc, path, m);
    assert Violations(r) == prelude + elements;
    assert r.Valid? <==> |prelude| + |elements| == 0;
    ListViolationsEmptyIff(s, v, loc, path, m, 0);
    if r.Valid? {
      forall j | 0 <= j < |v.elems|
        ensures ListValidation(s, v, loc, path, m, j).Valid? || IsUnionTyped(KeywordsOf(s).items.value.schema)
      {
        assert Violations(ListValidation(s, v, loc, path, m, j)) == [];
        NoViolationsMeansValidOrUnion(KeywordsOf(s).items.value.schema, v.elems[j], loc + "/items", path + "/" + NatToString(j), m);
      }
    }
  }

  /**
   * List mode: each violation of element `j` is reported by the array, and
   * it lies at `<loc>/items` and `<path>/<j>`.
   */
  lemma ListElementViolationReported(s: Schema, v: Value, loc: string, path: string, m: Matcher, j: nat)
    requires v.Arr? && j < |v.elems| && KeywordsOf(s).items.Some? && KeywordsOf(s).items.value.ListItems?
    ensures forall e :: e in Violations(ListValidation(s, v, loc, path, m, j)) ==>
      && e in Violations(ValidateArray(s, v, loc, path, m))
      && Under(e, loc + "/items", path + "/" + NatToString(j))
  {
    ArrayViolations(s, v, loc, path, m);
    ListViolationsInclude(s, v, loc, path, m, 0, j);
  }

  /**
   * Tuple mode, for an array at least as long as `items`: it passes exactly
   * when it has no type, `const` or `enum` violation and no position reports
   * a violation.
   */
  lemma TupleArrayValidIff(s: Schema, v: Value, loc: string, path: string, m: Matcher)
    requires v.Arr? && KeywordsOf(s).items.Some? && KeywordsOf(s).items.value.TupleItems? && |TupleSchemas(s)| <= |v.elems|
    ensures ValidateArray(s, v, loc, path, m).Valid? <==> CommonReasons(ArrayType, s, v) == [] && PositionsPass(s, v, loc, path, m, 0)
  {
    var r := ValidateArray(s, v, loc, path, m);
    var prelude := Locate(CommonReasons(ArrayType, s, v), v, s, loc, path);
    var positions := TupleViolations(s, v, loc, path, m, 0);
    ArrayViolations(s, v, loc, path, m);
    assert Violations(r) == prelude + positions;
    assert r.Valid? <==> |prelude| + |positions| == 0;
    TupleViolationsEmptyIff(s, v, loc, path, m, 0);
  }

  /** Tuple mode: each violation of position `j` is reported by the array, at `<loc>/items/<j>` and `<path>/<j>`. */
  lemma TupleElementViolationReported(s: Schema, v: Value, loc: string, path: string, m: Matcher, j: nat)
    requires v.Arr? && KeywordsOf(s).items.Some? && KeywordsOf(s).items.value.TupleItems? && j < |TupleSchemas(s)| <= |v.elems|
    ensures forall e :: e in Violations(TupleValidation(s, v, loc, path, m, j)) ==>
      && e in Violations(ValidateArray(s, v, loc, path, m))
      && Under(e, loc + "/items/" + NatToString(j), path + "/" + NatToString(j))
  {
    ArrayViolations(s, v, loc, path, m);
    TupleViolationsInclude(s, v, loc, path, m, 0, j);
  }

  /** Two array schemas that agree on `type`, `const`, `enum` and `items`. */
  predicate SameArrayKeywords(a: Keywords, b: Keywords)
  {
    a.jsonType == b.jsonType && a.constValue == b.constValue && a.enumValues == b.enumValues && a.items == b.items
  }

  lemma {:induction false} TupleFoldIgnoresOtherKeywords(s: Schema, s': Schema, v: Value, loc: string, path: string, m: Matcher,
                                                         i: nat, acc: ArrayPart, acc': ArrayPart)
    requires v.Arr? && KeywordsOf(s).items == KeywordsOf(s').items && i <= |TupleSchemas(s)| <= |v.elems|
    requires acc.items == acc'.items && |acc.violations| == |acc'.violations|
    ensures TupleFold(s, v, loc, path, m, i, acc).items == TupleFold(s', v, loc, path, m, i, acc').items
    ensures |TupleFold(s, v, loc, path, m, i, acc).violations| == |TupleFold(s', v, loc, path, m, i, acc').violations|
    decreases |TupleSchemas(s)| - i
  {
    if i < |TupleSchemas(s)| {
      assert TupleValidation(s, v, loc, path, m, i) == TupleValidation(s', v, loc, path, m, i);
      TupleFoldIgnoresOtherKeywords(s, s', v, loc, path, m, i + 1,
        Append(acc, TupleValidation(s, v, loc, path, m, i)), Append(acc', TupleValidation(s', v, loc, path, m, i)));
    }
  }

  lemma {:induction false} ListFoldIgnoresOtherKeywords(s: Schema, s': Schema, v: Value, loc: string, path: string, m: Matcher,
                                                        i: nat, acc: ArrayPart, acc': ArrayPart)
    requires v.Arr? && i <= |v.elems|
    requires KeywordsOf(s).items == KeywordsOf(s').items && KeywordsOf(s).items.Some? && KeywordsOf(s).items.value.ListItems?
    requires acc.items == acc'.items && |acc.violations| == |acc'.violations|
    ensures ListFold(s, v, loc, path, m, i, acc).items == ListFold(s', v, loc, path, m, i, acc').items
    ensures |ListFold(s, v, loc, path, m, i, acc).violations| == |ListFold(s', v, loc, path, m, i, acc').violations|
    decreases |v.elems| - i
  {
    if i < |v.elems| {
      assert ListValidation(s, v, loc, path, m, i) == ListValidation(s', v, loc, path, m, i);
      ListFoldIgnoresOtherKeywords(s, s', v, loc, path, m, i + 1,
        Append(acc, ListValidation(s, v, loc, path, m, i)), Append(acc', ListValidation(s', v, loc, path, m, i)));
    }
  }

  /**
   * `minItems`, `maxItems`, `uniqueItems` and `additionalItems` (and every
   * keyword other than `type`, `const`, `enum` and `items`) have no effect on
   * an array schema: whether a value passes and what it becomes are decided
   * by those four alone.
   */
  lemma ArrayKeywordsNotEnforced(kw: Keywords, kw': Keywords, v: Value, loc: string, path: string, m: Matcher)
    requires kw.jsonType == Some(Single(ArrayType)) && SameArrayKeywords(kw, kw') && v != Undefined
    ensures Validate(Node(kw), v, loc, path, m).Valid? <==> Validate(Node(kw'), v, loc, path, m).Valid?
    ensures Validate(Node(kw), v, loc, path, m).Valid? ==>
      Validate(Node(kw), v, loc, path, m).result == Validate(Node(kw'), v, loc, path, m).result
  {
    var s, s' := Node(kw), Node(kw');
    var cur := ArrayPart([], Locate(CommonReasons(ArrayType, s, v), v, s, loc, path));
    var cur' := ArrayPart([], Locate(CommonReasons(ArrayType, s', v), v, s', loc, path));
    assert CommonReasons(ArrayType, s, v) == CommonReasons(ArrayType, s', v);
    var part := ValidateArraySchema(s, v, loc, path, m, cur);
    var part' := ValidateArraySchema(s', v, loc, path, m, cur');
    if v.Arr? && kw.items.Some? {
      match kw.items.value
      case TupleItems(ss) =>
        if |v.elems| >= |ss| {
          TupleFoldIgnoresOtherKeywords(s, s', v, loc, path, m, 0, cur, cur');
        }
      case ListItems(_) =>
        ListFoldIgnoresOtherKeywords(s, s', v, loc, path, m, 0, cur, cur');
    }
    assert part.items == part'.items && |part.violations| == |part'.violations|;
    assert Validate(s, v, loc, path, m) == ValidateArray(s, v, loc, path, m);
    assert Validate(s', v, loc, path, m) == ValidateArray(s', v, loc, path, m);
  }
}
