/**
 * The recursive draft-07 validator: `validate(schema, value, schemaLocation,
 * valuePath)` returns either the value as rebuilt by the validator (defaults
 * substituted) or the located violations, in discovery order.
 */
module SchemaValidator {
  import opened Wrappers
  import opened Json
  import opened Schema

  // ---------------------------------------------------------------------------
  // Results
  // ---------------------------------------------------------------------------

  /** How a `const`/`enum` reason prints its values. */
  datatype Style =
    | Quoted  // string validator: `'${v}'`
    | Plain   // number validator: `${v}`
    | AsJson  // object and array validators: `JSON.stringify(v)`

  /** Why a value was rejected; `Render` turns it into the source's text. */
  datatype Reason =
    | FalseSchema
    | NoDefault
    | WrongType(expectedType: JsonType, actualType: string)
    | NotExactly(style: Style, constant: Value)
    | NotOneOf(style: Style, options: seq<Value>)
    | BelowMinLength(minLength: nat)
    | AboveMaxLength(maxLength: nat)
    | NoPatternMatch(pattern: string)
    | BelowMinimum(minimum: real)
    | NotAboveExclusiveMinimum(exclusiveMinimum: real)
    | AboveMaximum(maximum: real)
    | NotBelowExclusiveMaximum(exclusiveMaximum: real)
    | NotMultipleOf(multipleOf: real)
    | NotInteger
    | TupleLength(tupleLength: nat, length: nat)
    | MissingRequired(names: seq<string>)
    | AdditionalProperties(names: seq<string>)
    | TooFewProperties(minProperties: nat)
    | TooManyProperties(maxProperties: nat)

  /** One located violation (the source's `Invalid` record). */
  datatype Violation = Violation(value: Value, schema: Schema, reason: Reason, schemaLocation: string, valuePath: string)

  datatype ValidationResult = Valid(result: Value) | Invalid(violations: seq<Violation>)

  /** Regular-expression matching, `text.match(pattern)` being non-null. */
  type Matcher = (string, string) -> bool

  /** The value a result contributes to a rebuilt object or array. */
  function Resolved(r: ValidationResult): Value
  {
    if r.Valid? then r.result else Undefined
  }

  /** The violations a result contributes to its parent's list. */
  function Violations(r: ValidationResult): seq<Violation>
  {
    if r.Valid? then [] else r.violations
  }

  /** `invalidations.length ? invalid(...) : valid(value)`. */
  function Verdict(v: Value, vs: seq<Violation>): ValidationResult
  {
    if |vs| > 0 then Invalid(vs) else Valid(v)
  }

  /** Each reason as a violation of `s` by `v` at the given location. */
  function Locate(reasons: seq<Reason>, v: Value, s: Schema, loc: string, path: string): (vs: seq<Violation>)
    ensures |vs| == |reasons|
    ensures forall i :: 0 <= i < |vs| ==> vs[i] == Violation(v, s, reasons[i], loc, path)
    ensures AllUnder(vs, loc, path)
  {
    seq(|reasons|, i requires 0 <= i < |reasons| => Violation(v, s, reasons[i], loc, path))
  }

  // ---------------------------------------------------------------------------
  // Locations
  // ---------------------------------------------------------------------------

  /** A violation found at or below the given schema location and value path. */
  predicate Under(e: Violation, loc: string, path: string)
  {
    loc <= e.schemaLocation && path <= e.valuePath
  }

  predicate AllUnder(vs: seq<Violation>, loc: string, path: string)
  {
    forall i :: 0 <= i < |vs| ==> Under(vs[i], loc, path)
  }

  lemma AllUnderWiden(vs: seq<Violation>, loc: string, x: string, path: string, y: string)
    requires AllUnder(vs, loc + x, path + y)
    ensures AllUnder(vs, loc, path)
  {
    forall i | 0 <= i < |vs| ensures Under(vs[i], loc, path) {
      PrefixTrans(loc, loc + x, vs[i].schemaLocation);
      PrefixTrans(path, path + y, vs[i].valuePath);
    }
  }

  lemma PrefixTrans(a: string, b: string, c: string)
    requires a <= b && b <= c
    ensures a <= c
  {
    assert c[..|a|] == c[..|b|][..|a|];
  }

  lemma AllUnderConcat(a: seq<Violation>, b: seq<Violation>, loc: string, path: string)
    ensures AllUnder(a + b, loc, path) <==> AllUnder(a, loc, path) && AllUnder(b, loc, path)
  {
    if AllUnder(a, loc, path) && AllUnder(b, loc, path) {
      forall i | 0 <= i < |a + b| ensures Under((a + b)[i], loc, path) {
        if i >= |a| { assert (a + b)[i] == b[i - |a|]; }
      }
    }
    if AllUnder(a + b, loc, path) {
      forall i | 0 <= i < |a| ensures Under(a[i], loc, path) {
        assert (a + b)[i] == a[i];
      }
      forall i | 0 <= i < |b| ensures Under(b[i], loc, path) {
        assert (a + b)[|a| + i] == b[i];
      }
    }
  }

  lemma ConcatAssoc(a: seq<Violation>, b: seq<Violation>, c: seq<Violation>)
    ensures a + b + c == a + (b + c)
  {
  }

  /** Chaining two fold steps: what each adds is located, so what both add is. */
  lemma FoldStep(a: seq<Violation>, b: seq<Violation>, c: seq<Violation>, loc: string, path: string)
    requires a <= b && b <= c
    requires AllUnder(b[|a|..], loc, path) && AllUnder(c[|b|..], loc, path)
    ensures a <= c && AllUnder(c[|a|..], loc, path)
  {
    assert c[|a|..] == b[|a|..] + c[|b|..];
    AllUnderConcat(b[|a|..], c[|b|..], loc, path);
  }

  // ---------------------------------------------------------------------------
  // Type guard
  // ---------------------------------------------------------------------------

  /** The JSON type a value has, read declaratively: arrays and null are not objects. */
  predicate HasType(v: Value, t: JsonType)
  {
    match t
    case NullType => v.Null?
    case ArrayType => v.Arr?
    case ObjectType => v.Obj?
    case StringType => v.Str?
    case NumberType => v.Num?
    case BooleanType => v.Bool?
    case IntegerType => false  // no runtime value has `typeof` "integer"
  }

  /** The type a wrong-type reason names: `null`, `array`, or `typeof`. */
  function ActualType(v: Value): string
  {
    if v.Null? then "null" else if v.Arr? then "array" else TypeOf(v)
  }

  /** `validateType`: `None` when `v` has type `t`, else the wrong-type reason. */
  function ValidateType(v: Value, t: JsonType): (r: Option<Reason>)
    ensures r.None? <==> HasType(v, t)
    ensures r.Some? ==> r.value == WrongType(t, ActualType(v))
  {
    var reason := WrongType(t, ActualType(v));
    if t == NullType then
      (if v.Null? then None else Some(reason))
    else if t == ArrayType then
      (if v.Arr? then None else Some(reason))
    else if TypeOf(v) != TypeName(t) || v.Arr? || v.Null? then
      Some(reason)
    else
      None
  }

  // ---------------------------------------------------------------------------
  // Scalar checks, read declaratively
  // ---------------------------------------------------------------------------

  /** The keyword checks the per-type validators perform. */
  datatype Check =
    | TypeCheck | ConstCheck | EnumCheck
    | MinLengthCheck | MaxLengthCheck | PatternCheck
    | MinimumCheck | ExclusiveMinimumCheck | MaximumCheck | ExclusiveMaximumCheck | MultipleOfCheck

  /** The checks of the string validator, in the order it reports them. */
  const StringChecks: seq<Check> := [TypeCheck, ConstCheck, EnumCheck, MinLengthCheck, MaxLengthCheck, PatternCheck]

  /** The checks of the number validator, in the order it reports them. */
  const NumberChecks: seq<Check> :=
    [TypeCheck, ConstCheck, EnumCheck, MinimumCheck, ExclusiveMinimumCheck, MaximumCheck, ExclusiveMaximumCheck, MultipleOfCheck]

  /** `value % multipleOf === 0`, read on exact reals. */
  predicate IsMultipleOf(x: real, d: real)
    requires d != 0.0
  {
    IsIntegral(x / d)
  }

  /**
   * Whether check `c` rejects `v` in the validator for `kind`: the minimum and
   * maximum bounds are inclusive, the exclusive ones strict, a `multipleOf` of
   * zero is no constraint, and the length, pattern and numeric keywords only
   * apply to values of their own type.
   */
  predicate Fails(kind: JsonType, s: Schema, v: Value, c: Check, m: Matcher)
  {
    var kw := KeywordsOf(s);
    match c
    case TypeCheck => !HasType(v, kind)
    case ConstCheck => kw.constValue != Undefined && v != kw.constValue
    case EnumCheck => kw.enumValues.Some? && v !in kw.enumValues.value
    case MinLengthCheck => v.Str? && kw.minLength.Some? && |v.s| < kw.minLength.value
    case MaxLengthCheck => v.Str? && kw.maxLength.Some? && |v.s| > kw.maxLength.value
    case PatternCheck => v.Str? && kw.pattern.Some? && !m(v.s, kw.pattern.value)
    case MinimumCheck => v.Num? && kw.minimum.Some? && v.n < kw.minimum.value
    case ExclusiveMinimumCheck => v.Num? && kw.exclusiveMinimum.Some? && v.n <= kw.exclusiveMinimum.value
    case MaximumCheck => v.Num? && kw.maximum.Some? && v.n > kw.maximum.value
    case ExclusiveMaximumCheck => v.Num? && kw.exclusiveMaximum.Some? && v.n >= kw.exclusiveMaximum.value
    case MultipleOfCheck =>
      v.Num? && kw.multipleOf.Some? && kw.multipleOf.value != 0.0 && !IsMultipleOf(v.n, kw.multipleOf.value)
  }

  /** The style of the `const`/`enum` reasons of the validator for `kind`. */
  function StyleOf(kind: JsonType): Style
  {
    match kind
    case StringType => Quoted
    case NumberType => Plain
    case IntegerType => Plain
    case _ => AsJson
  }

  /** The reason a failing check reports. */
  function ReasonFor(kind: JsonType, s: Schema, v: Value, c: Check): Reason
  {
    var kw := KeywordsOf(s);
    match c
    case TypeCheck => WrongType(kind, ActualType(v))
    case ConstCheck => NotExactly(StyleOf(kind), kw.constValue)
    case EnumCheck => NotOneOf(StyleOf(kind), kw.enumValues.GetOr([]))
    case MinLengthCheck => BelowMinLength(kw.minLength.GetOr(0))
    case MaxLengthCheck => AboveMaxLength(kw.maxLength.GetOr(0))
    case PatternCheck => NoPatternMatch(kw.pattern.GetOr(""))
    case MinimumCheck => BelowMinimum(kw.minimum.GetOr(0.0))
    case ExclusiveMinimumCheck => NotAboveExclusiveMinimum(kw.exclusiveMinimum.GetOr(0.0))
    case MaximumCheck => AboveMaximum(kw.maximum.GetOr(0.0))
    case ExclusiveMaximumCheck => NotBelowExclusiveMaximum(kw.exclusiveMaximum.GetOr(0.0))
    case MultipleOfCheck => NotMultipleOf(kw.multipleOf.GetOr(0.0))
  }

  /** The reason of check `c`, if it fails. */
  function FailingReason(kind: JsonType, s: Schema, v: Value, c: Check, m: Matcher): seq<Reason>
  {
    if Fails(kind, s, v, c, m) then [ReasonFor(kind, s, v, c)] else []
  }

  /** The reasons of the checks among `cs` that fail, in the order of `cs`. */
  function FailingReasons(kind: JsonType, s: Schema, v: Value, cs: seq<Check>, m: Matcher): seq<Reason>
  {
    if |cs| == 0 then [] else FailingReason(kind, s, v, cs[0], m) + FailingReasons(kind, s, v, cs[1..], m)
  }

  lemma {:induction false} FailingReasonsConcat(kind: JsonType, s: Schema, v: Value, cs: seq<Check>, ds: seq<Check>, m: Matcher)
    ensures FailingReasons(kind, s, v, cs + ds, m) == FailingReasons(kind, s, v, cs, m) + FailingReasons(kind, s, v, ds, m)
  {
    if |cs| == 0 {
      assert cs + ds == ds;
    } else {
      assert (cs + ds)[1..] == cs[1..] + ds;
      FailingReasonsConcat(kind, s, v, cs[1..], ds, m);
    }
  }

  lemma FailingReasons1(kind: JsonType, s: Schema, v: Value, c: Check, m: Matcher)
    ensures FailingReasons(kind, s, v, [c], m) == FailingReason(kind, s, v, c, m)
  {
    assert [c][1..] == [];
    assert FailingReasons(kind, s, v, [c], m) == FailingReason(kind, s, v, c, m) + [];
  }

  lemma FailingReasons2(kind: JsonType, s: Schema, v: Value, c1: Check, c2: Check, m: Matcher)
    ensures FailingReasons(kind, s, v, [c1, c2], m) == FailingReason(kind, s, v, c1, m) + FailingReason(kind, s, v, c2, m)
  {
    assert [c1, c2][1..] == [c2];
    FailingReasons1(kind, s, v, c2, m);
  }

  lemma FailingReasons3(kind: JsonType, s: Schema, v: Value, c1: Check, c2: Check, c3: Check, m: Matcher)
    ensures FailingReasons(kind, s, v, [c1, c2, c3], m)
      == FailingReason(kind, s, v, c1, m) + FailingReason(kind, s, v, c2, m) + FailingReason(kind, s, v, c3, m)
  {
    assert [c1, c2, c3][1..] == [c2, c3];
    FailingReasons2(kind, s, v, c2, c3, m);
  }

  /** The verdict of a scalar validator: exactly the failing checks, in order. */
  function ScalarVerdict(kind: JsonType, s: Schema, v: Value, cs: seq<Check>, loc: string, path: string, m: Matcher): ValidationResult
  {
    Verdict(v, Locate(FailingReasons(kind, s, v, cs, m), v, s, loc, path))
  }

  // ---------------------------------------------------------------------------
  // Scalar validators
  // ---------------------------------------------------------------------------

  /** The type, `const` and `enum` reasons every per-type validator starts with. */
  function CommonReasons(kind: JsonType, s: Schema, v: Value): seq<Reason>
  {
    var kw := KeywordsOf(s);
    (match ValidateType(v, kind) case Some(r) => [r] case None => [])
    + (if kw.constValue != Undefined && v != kw.constValue then [NotExactly(StyleOf(kind), kw.constValue)] else [])
    + (if kw.enumValues.Some? && v !in kw.enumValues.value then [NotOneOf(StyleOf(kind), kw.enumValues.value)] else [])
  }

  lemma CommonReasonsAreFailingChecks(kind: JsonType, s: Schema, v: Value, m: Matcher)
    ensures CommonReasons(kind, s, v) == FailingReasons(kind, s, v, [TypeCheck, ConstCheck, EnumCheck], m)
  {
    FailingReasons3(kind, s, v, TypeCheck, ConstCheck, EnumCheck, m);
  }

  /** The `minLength`, `maxLength` and `pattern` reasons of `validateString`. */
  function LengthAndPatternReasons(s: Schema, v: Value, m: Matcher): seq<Reason>
  {
    var kw := KeywordsOf(s);
    if v.Str? then
      (if kw.minLength.Some? && |v.s| < kw.minLength.value then [BelowMinLength(kw.minLength.value)] else [])
      + (if kw.maxLength.Some? && |v.s| > kw.maxLength.value then [AboveMaxLength(kw.maxLength.value)] else [])
      + (if kw.pattern.Some? && !m(v.s, kw.pattern.value) then [NoPatternMatch(kw.pattern.value)] else [])
    else []
  }

  lemma StringReasonsAreFailingChecks(s: Schema, v: Value, m: Matcher)
    ensures CommonReasons(StringType, s, v) + LengthAndPatternReasons(s, v, m)
         == FailingReasons(StringType, s, v, StringChecks, m)
  {
    var common, rest := [TypeCheck, ConstCheck, EnumCheck], [MinLengthCheck, MaxLengthCheck, PatternCheck];
    CommonReasonsAreFailingChecks(StringType, s, v, m);
    FailingReasons3(StringType, s, v, MinLengthCheck, MaxLengthCheck, PatternCheck, m);
    assert StringChecks == common + rest;
    FailingReasonsConcat(StringType, s, v, common, rest, m);
  }

  /**
   * `validateString`. Also used, whatever the schema's own `type`, for the
   * keys of an object under `propertyNames`.
   */
  function ValidateString(s: Schema, v: Value, loc: string, path: string, m: Matcher): (r: ValidationResult)
    ensures r == ScalarVerdict(StringType, s, v, StringChecks, loc, path, m)
    ensures r.Valid? ==> r.result == v
    ensures r.Invalid? ==> |r.violations| > 0 && AllUnder(r.violations, loc, path)
  {
    var reasons := CommonReasons(StringType, s, v) + LengthAndPatternReasons(s, v, m);
    StringReasonsAreFailingChecks(s, v, m);
    Verdict(v, Locate(reasons, v, s, loc, path))
  }

  /** The `minimum`, `exclusiveMinimum` and `maximum` reasons of `validateNumber`. */
  function BoundReasons(s: Schema, v: Value): seq<Reason>
  {
    var kw := KeywordsOf(s);
    if v.Num? then
      (if kw.minimum.Some? && v.n < kw.minimum.value then [BelowMinimum(kw.minimum.value)] else [])
      + (if kw.exclusiveMinimum.Some? && v.n <= kw.exclusiveMinimum.value
         then [NotAboveExclusiveMinimum(kw.exclusiveMinimum.value)] else [])
      + (if kw.maximum.Some? && v.n > kw.maximum.value then [AboveMaximum(kw.maximum.value)] else [])
    else []
  }

  /** The `exclusiveMaximum` and `multipleOf` reasons of `validateNumber`. */
  function UpperReasons(s: Schema, v: Value): seq<Reason>
  {
    var kw := KeywordsOf(s);
    if v.Num? then
      (if kw.exclusiveMaximum.Some? && v.n >= kw.exclusiveMaximum.value
       then [NotBelowExclusiveMaximum(kw.exclusiveMaximum.value)] else [])
      + (if kw.multipleOf.Some? && kw.multipleOf.value != 0.0 && !IsMultipleOf(v.n, kw.multipleOf.value)
         then [NotMultipleOf(kw.multipleOf.value)] else [])
    else []
  }

  lemma BoundReasonsAreFailingChecks(s: Schema, v: Value, m: Matcher)
    ensures BoundReasons(s, v) == FailingReasons(NumberType, s, v, [MinimumCheck, ExclusiveMinimumCheck, MaximumCheck], m)
  {
    FailingReasons3(NumberType, s, v, MinimumCheck, ExclusiveMinimumCheck, MaximumCheck, m);
  }

  lemma UpperReasonsAreFailingChecks(s: Schema, v: Value, m: Matcher)
    ensures UpperReasons(s, v) == FailingReasons(NumberType, s, v, [ExclusiveMaximumCheck, MultipleOfCheck], m)
  {
    FailingReasons2(NumberType, s, v, ExclusiveMaximumCheck, MultipleOfCheck, m);
  }

  lemma NumberReasonsAreFailingChecks(s: Schema, v: Value, m: Matcher)
    ensures CommonReasons(NumberType, s, v) + (BoundReasons(s, v) + UpperReasons(s, v))
         == FailingReasons(NumberType, s, v, NumberChecks, m)
  {
    var common, bounds, upper := [TypeCheck, ConstCheck, EnumCheck], [MinimumCheck, ExclusiveMinimumCheck, MaximumCheck], [ExclusiveMaximumCheck, MultipleOfCheck];
    BoundReasonsAreFailingChecks(s, v, m);
    UpperReasonsAreFailingChecks(s, v, m);
    CommonReasonsAreFailingChecks(NumberType, s, v, m);
    assert NumberChecks == common + (bounds + upper);
    FailingReasonsConcat(NumberType, s, v, bounds, upper, m);
    FailingReasonsConcat(NumberType, s, v, common, bounds + upper, m);
  }

  /** `validateNumber`. */
  function ValidateNumber(s: Schema, v: Value, loc: string, path: string, m: Matcher): (r: ValidationResult)
    ensures r == ScalarVerdict(NumberType, s, v, NumberChecks, loc, path, m)
    ensures r.Valid? ==> r.result == v
    ensures r.Invalid? ==> |r.violations| > 0 && AllUnder(r.violations, loc, path)
  {
    var reasons := CommonReasons(NumberType, s, v) + (BoundReasons(s, v) + UpperReasons(s, v));
    NumberReasonsAreFailingChecks(s, v, m);
    Verdict(v, Locate(reasons, v, s, loc, path))
  }

  /**
   * `validateInteger`: a non-integral number gets "should have been an
   * integer" in front of whatever the number validator reports.
   */
  function ValidateInteger(s: Schema, v: Value, loc: string, path: string, m: Matcher): (r: ValidationResult)
    ensures v.Num? && !IsIntegral(v.n) ==>
      r == Invalid([Violation(v, s, NotInteger, loc, path)] + Violations(ValidateNumber(s, v, loc, path, m)))
    ensures !(v.Num? && !IsIntegral(v.n)) ==> r == ValidateNumber(s, v, loc, path, m)
    ensures r.Invalid? ==> |r.violations| > 0 && AllUnder(r.violations, loc, path)
  {
    var validation := ValidateNumber(s, v, loc, path, m);
    if v.Num? && v.n.Floor as real != v.n then
      Invalid([Violation(v, s, NotInteger, loc, path)] + Violations(validation))
    else
      validation
  }

  /** `validateNull`: the type guard only. */
  function ValidateNull(s: Schema, v: Value, loc: string, path: string): (r: ValidationResult)
    ensures r.Valid? <==> v.Null?
    ensures r.Valid? ==> r.result == v
    ensures r.Invalid? ==> r.violations == [Violation(v, s, WrongType(NullType, ActualType(v)), loc, path)]
  {
    var reasons := match ValidateType(v, NullType) case Some(r) => [r] case None => [];
    Verdict(v, Locate(reasons, v, s, loc, path))
  }

  /** `validateBoolean`: the type guard only. */
  function ValidateBoolean(s: Schema, v: Value, loc: string, path: string): (r: ValidationResult)
    ensures r.Valid? <==> v.Bool?
    ensures r.Valid? ==> r.result == v
    ensures r.Invalid? ==> r.violations == [Violation(v, s, WrongType(BooleanType, ActualType(v)), loc, path)]
  {
    var reasons := match ValidateType(v, BooleanType) case Some(r) => [r] case None => [];
    Verdict(v, Locate(reasons, v, s, loc, path))
  }

  /** `validateAgainstAnyOf`: unfinished; every union is rejected with no violations. */
  function ValidateAgainstAnyOf(s: Schema, v: Value, loc: string): (r: ValidationResult)
    ensures r.Invalid? && |r.violations| == 0
  {
    Invalid([])
  }

  // ---------------------------------------------------------------------------
  // Dispatcher
  // ---------------------------------------------------------------------------

  /** A structured schema whose `type` is an array of names. */
  predicate IsUnionTyped(s: Schema)
  {
    s.Node? && s.kw.jsonType.Some? && s.kw.jsonType.value.Union?
  }

  /** Arrays stay arrays, objects stay objects, every other value is returned as is. */
  predicate SameShape(v: Value, w: Value)
  {
    if v.Arr? then w.Arr? else if v.Obj? then w.Obj? else w == v
  }

  /**
   * `SchemaValidator.validate`: the boolean schemas, the `undefined` value and
   * an absent `type` are settled here, everything else by `type`. Every
   * violation is located at or below `loc` and `path`; an empty `Invalid`
   * comes from a union `type` and from nothing else; a valid defined value
   * keeps its shape.
   */
  function Validate(s: Schema, v: Value, loc: string, path: string, m: Matcher): (r: ValidationResult)
    ensures r.Invalid? ==> AllUnder(r.violations, loc, path)
    ensures (r.Invalid? && r.violations == []) <==> (v != Undefined && IsUnionTyped(s))
    ensures r.Valid? && v != Undefined ==> SameShape(v, r.result)
    decreases s, 7, 0
  {
    match s
    case BoolSchema(accepts) =>
      if accepts then Valid(v) else Invalid([Violation(v, s, FalseSchema, loc, path)])
    case Node(kw) =>
      if v == Undefined then
        (if kw.defaultValue != Undefined then Valid(kw.defaultValue)
         else Invalid([Violation(Undefined, s, NoDefault, loc, path)]))
      else
        match kw.jsonType
        case None => Valid(v)
        case Some(Union(_)) => ValidateAgainstAnyOf(s, v, loc)
        case Some(Single(t)) => ValidateTyped(s, t, v, loc, path, m)
  }

  /** The `switch` on a single `type` name of `validateAgainstSchema`. */
  function ValidateTyped(s: Schema, t: JsonType, v: Value, loc: string, path: string, m: Matcher): (r: ValidationResult)
    ensures r.Invalid? ==> |r.violations| > 0 && AllUnder(r.violations, loc, path)
    ensures r.Valid? ==> SameShape(v, r.result)
    decreases s, 6, 0
  {
    match t
    case StringType => ValidateString(s, v, loc, path, m)
    case NullType => ValidateNull(s, v, loc, path)
    case NumberType => ValidateNumber(s, v, loc, path, m)
    case IntegerType => ValidateInteger(s, v, loc, path, m)
    case BooleanType => ValidateBoolean(s, v, loc, path)
    case ObjectType => ValidateObject(s, v, loc, path, m)
    case ArrayType => ValidateArray(s, v, loc, path, m)
  }

  // ---------------------------------------------------------------------------
  // Arrays
  // ---------------------------------------------------------------------------

  datatype ArrayPart = ArrayPart(items: seq<Value>, violations: seq<Violation>)

  /** `[...prev.array, resolved]` with the child's violations appended. */
  function Append(acc: ArrayPart, r: ValidationResult): ArrayPart
  {
    ArrayPart(acc.items + [Resolved(r)], acc.violations + Violations(r))
  }

  /** The positional schemas of a tuple-mode `items`. */
  function TupleSchemas(s: Schema): seq<Schema>
  {
    match KeywordsOf(s).items
    case Some(TupleItems(ss)) => ss
    case _ => []
  }

  /** Element `i` against its positional schema, at `<loc>/items/<i>`, `<path>/<i>`. */
  function TupleValidation(s: Schema, v: Value, loc: string, path: string, m: Matcher, i: nat): ValidationResult
    requires v.Arr? && i < |TupleSchemas(s)| <= |v.elems|
    decreases s, 0, 0
  {
    var ss := TupleSchemas(s);
    assert ss[i] in ss;
    Validate(ss[i], v.elems[i], loc + "/items/" + NatToString(i), path + "/" + NatToString(i), m)
  }

  /** Element `i` against the list-mode `items` schema, at `<loc>/items`, `<path>/<i>`. */
  function ListValidation(s: Schema, v: Value, loc: string, path: string, m: Matcher, i: nat): ValidationResult
    requires v.Arr? && i < |v.elems|
    requires KeywordsOf(s).items.Some? && KeywordsOf(s).items.value.ListItems?
    decreases s, 0, 0
  {
    Validate(KeywordsOf(s).items.value.schema, v.elems[i], loc + "/items", path + "/" + NatToString(i), m)
  }

  /** The violations of the tuple positions from `i` on, position by position. */
  function TupleViolations(s: Schema, v: Value, loc: string, path: string, m: Matcher, i: nat): seq<Violation>
    requires v.Arr? && i <= |TupleSchemas(s)| <= |v.elems|
    decreases s, 0, |TupleSchemas(s)| - i + 1
  {
    if i == |TupleSchemas(s)| then []
    else Violations(TupleValidation(s, v, loc, path, m, i)) + TupleViolations(s, v, loc, path, m, i + 1)
  }

  /** The violations of the elements from index `i` on, element by element. */
  function ListViolations(s: Schema, v: Value, loc: string, path: string, m: Matcher, i: nat): seq<Violation>
    requires v.Arr? && i <= |v.elems|
    requires KeywordsOf(s).items.Some? && KeywordsOf(s).items.value.ListItems?
    decreases s, 0, |v.elems| - i + 1
  {
    if i == |v.elems| then []
    else Violations(ListValidation(s, v, loc, path, m, i)) + ListViolations(s, v, loc, path, m, i + 1)
  }

  /** The tuple-mode `reduce` over `items`, from position `i`. */
  function TupleFold(s: Schema, v: Value, loc: string, path: string, m: Matcher, i: nat, acc: ArrayPart): (r: ArrayPart)
    requires v.Arr? && i <= |TupleSchemas(s)| <= |v.elems|
    ensures |r.items| == |acc.items| + |TupleSchemas(s)| - i
    ensures r.items[..|acc.items|] == acc.items
    ensures forall j :: i <= j < |TupleSchemas(s)| ==>
      r.items[|acc.items| + j - i] == Resolved(TupleValidation(s, v, loc, path, m, j))
    ensures acc.violations <= r.violations
    ensures AllUnder(r.violations[|acc.violations|..], loc + "/items/", path + "/")
    decreases s, 1, |TupleSchemas(s)| - i
  {
    if i == |TupleSchemas(s)| then acc
    else
      var validation := TupleValidation(s, v, loc, path, m, i);
      var step := Append(acc, validation);
      var r := TupleFold(s, v, loc, path, m, i + 1, step);
      AppendUnder(acc, validation, loc + "/items/" + NatToString(i), path + "/" + NatToString(i), loc + "/items/", path + "/");
      FoldStep(acc.violations, step.violations, r.violations, loc + "/items/", path + "/");
      r
  }

  /** The list-mode `reduce` over the elements, from index `i`. */
  function ListFold(s: Schema, v: Value, loc: string, path: string, m: Matcher, i: nat, acc: ArrayPart): (r: ArrayPart)
    requires v.Arr? && i <= |v.elems|
    requires KeywordsOf(s).items.Some? && KeywordsOf(s).items.value.ListItems?
    ensures |r.items| == |acc.items| + |v.elems| - i
    ensures r.items[..|acc.items|] == acc.items
    ensures forall j :: i <= j < |v.elems| ==>
      r.items[|acc.items| + j - i] == Resolved(ListValidation(s, v, loc, path, m, j))
    ensures acc.violations <= r.violations
    ensures AllUnder(r.violations[|acc.violations|..], loc + "/items", path + "/")
    decreases s, 1, |v.elems| - i
  {
    if i == |v.elems| then acc
    else
      var validation := ListValidation(s, v, loc, path, m, i);
      var step := Append(acc, validation);
      var r := ListFold(s, v, loc, path, m, i + 1, step);
      AppendUnder(acc, validation, loc + "/items", path + "/" + NatToString(i), loc + "/items", path + "/");
      FoldStep(acc.violations, step.violations, r.violations, loc + "/items", path + "/");
      r
  }

  /** The tuple-mode fold reports exactly the violations of each position from `i` on, in order. */
  lemma {:induction false} TupleFoldViolations(s: Schema, v: Value, loc: string, path: string, m: Matcher, i: nat, acc: ArrayPart)
    requires v.Arr? && i <= |TupleSchemas(s)| <= |v.elems|
    ensures TupleFold(s, v, loc, path, m, i, acc).violations == acc.violations + TupleViolations(s, v, loc, path, m, i)
    decreases |TupleSchemas(s)| - i
  {
    if i == |TupleSchemas(s)| {
      assert acc.violations + [] == acc.violations;
    } else {
      var validation := TupleValidation(s, v, loc, path, m, i);
      var step := Append(acc, validation);
      assert TupleFold(s, v, loc, path, m, i, acc) == TupleFold(s, v, loc, path, m, i + 1, step);
      TupleFoldViolations(s, v, loc, path, m, i + 1, step);
      ConcatAssoc(acc.violations, Violations(validation), TupleViolations(s, v, loc, path, m, i + 1));
    }
  }

  /** The list-mode fold reports exactly the violations of each element from `i` on, in order. */
  lemma {:induction false} ListFoldViolations(s: Schema, v: Value, loc: string, path: string, m: Matcher, i: nat, acc: ArrayPart)
    requires v.Arr? && i <= |v.elems|
    requires KeywordsOf(s).items.Some? && KeywordsOf(s).items.value.ListItems?
    ensures ListFold(s, v, loc, path, m, i, acc).violations == acc.violations + ListViolations(s, v, loc, path, m, i)
    decreases |v.elems| - i
  {
    if i == |v.elems| {
      assert acc.violations + [] == acc.violations;
    } else {
      var validation := ListValidation(s, v, loc, path, m, i);
      var step := Append(acc, validation);
      assert ListFold(s, v, loc, path, m, i, acc) == ListFold(s, v, loc, path, m, i + 1, step);
      ListFoldViolations(s, v, loc, path, m, i + 1, step);
      ConcatAssoc(acc.violations, Violations(validation), ListViolations(s, v, loc, path, m, i + 1));
    }
  }

  /** A child result located below (`loc'`, `path'`) adds only violations located there. */
  lemma AppendUnder(acc: ArrayPart, r: ValidationResult, loc': string, path': string, loc: string, path: string)
    requires r.Invalid? ==> AllUnder(r.violations, loc', path')
    requires loc <= loc' && path <= path'
    ensures acc.violations <= Append(acc, r).violations
    ensures AllUnder(Append(acc, r).violations[|acc.violations|..], loc, path)
  {
    assert Append(acc, r).violations[|acc.violations|..] == Violations(r);
    forall i | 0 <= i < |Violations(r)| ensures Under(Violations(r)[i], loc, path) {
      PrefixTrans(loc, loc', Violations(r)[i].schemaLocation);
      PrefixTrans(path, path', Violations(r)[i].valuePath);
    }
  }

  /**
   * What `items` adds for a value: nothing without `items` or for a value
   * that is not an array; in list mode every element's violations in order;
   * for a tuple at least as long as `items` every position's violations in
   * order; for a shorter tuple one length violation.
   */
  function ItemViolations(s: Schema, v: Value, loc: string, path: string, m: Matcher): seq<Violation>
    decreases s, 2, 0
  {
    match KeywordsOf(s).items
    case None => []
    case Some(items) =>
      if !v.Arr? then []
      else
        match items
        case TupleItems(ss) =>
          if |v.elems| >= |ss| then TupleViolations(s, v, loc, path, m, 0)
          else [Violation(v, s, TupleLength(|ss|, |v.elems|), loc, path)]
        case ListItems(_) => ListViolations(s, v, loc, path, m, 0)
  }

  /**
   * `validateArraySchema`. Only `items` is read; a value that is not an array
   * is left to the type violation already collected.
   */
  function ValidateArraySchema(s: Schema, v: Value, loc: string, path: string, m: Matcher, cur: ArrayPart): (r: ArrayPart)
    ensures cur.violations <= r.violations
    ensures AllUnder(r.violations[|cur.violations|..], loc, path)
    ensures KeywordsOf(s).items.None? ==> r.violations == cur.violations && (v.Arr? ==> r.items == v.elems)
    ensures v.Arr? && KeywordsOf(s).items.Some? && KeywordsOf(s).items.value.ListItems? ==>
      |r.items| == |cur.items| + |v.elems| &&
      forall j :: 0 <= j < |v.elems| ==> r.items[|cur.items| + j] == Resolved(ListValidation(s, v, loc, path, m, j))
    ensures v.Arr? && KeywordsOf(s).items.Some? && KeywordsOf(s).items.value.TupleItems? && |v.elems| >= |TupleSchemas(s)| ==>
      |r.items| == |cur.items| + |TupleSchemas(s)| &&
      forall j :: 0 <= j < |TupleSchemas(s)| ==> r.items[|cur.items| + j] == Resolved(TupleValidation(s, v, loc, path, m, j))
    ensures v.Arr? && KeywordsOf(s).items.Some? && KeywordsOf(s).items.value.TupleItems? && |v.elems| < |TupleSchemas(s)| ==>
      r == ArrayPart([], cur.violations + [Violation(v, s, TupleLength(|TupleSchemas(s)|, |v.elems|), loc, path)])
    decreases s, 4, 0
  {
    match KeywordsOf(s).items
    case None => ArrayPart(if v.Arr? then v.elems else [], cur.violations)
    case Some(items) =>
      if !v.Arr? then cur
      else
        match items
        case TupleItems(ss) =>
          if |v.elems| >= |ss| then
            var r := TupleFold(s, v, loc, path, m, 0, cur);
            AllUnderWiden(r.violations[|cur.violations|..], loc, "/items/", path, "/");
            r
          else
            ArrayPart([], cur.violations + [Violation(v, s, TupleLength(|ss|, |v.elems|), loc, path)])
        case ListItems(_) =>
          var r := ListFold(s, v, loc, path, m, 0, cur);
          AllUnderWiden(r.violations[|cur.violations|..], loc, "/items", path, "/");
          r
  }

  /**
   * `validateArray`. With no `items` a valid array is returned unchanged; in
   * list mode the result has the input's length and holds each element's
   * own result; a long enough tuple is cut to the length of `items`; a short
   * tuple gets one length violation and no element checks.
   */
  function ValidateArray(s: Schema, v: Value, loc: string, path: string, m: Matcher): (r: ValidationResult)
    ensures r.Invalid? ==> |r.violations| > 0 && AllUnder(r.violations, loc, path)
    ensures r.Valid? ==> v.Arr? && r.result.Arr?
    ensures r.Valid? && KeywordsOf(s).items.None? ==> r.result == v
    ensures r.Valid? && KeywordsOf(s).items.Some? && KeywordsOf(s).items.value.ListItems? ==>
      |r.result.elems| == |v.elems| &&
      forall j :: 0 <= j < |v.elems| ==> r.result.elems[j] == Resolved(ListValidation(s, v, loc, path, m, j))
    ensures r.Valid? && KeywordsOf(s).items.Some? && KeywordsOf(s).items.value.TupleItems? ==>
      |TupleSchemas(s)| <= |v.elems| && |r.result.elems| == |TupleSchemas(s)| &&
      forall j :: 0 <= j < |TupleSchemas(s)| ==> r.result.elems[j] == Resolved(TupleValidation(s, v, loc, path, m, j))
    ensures v.Arr? && KeywordsOf(s).items.Some? && KeywordsOf(s).items.value.TupleItems? && |v.elems| < |TupleSchemas(s)| ==>
      r == Invalid(Locate(CommonReasons(ArrayType, s, v), v, s, loc, path)
                   + [Violation(v, s, TupleLength(|TupleSchemas(s)|, |v.elems|), loc, path)])
    decreases s, 5, 0
  {
    var prelude := Locate(CommonReasons(ArrayType, s, v), v, s, loc, path);
    var part := ValidateArraySchema(s, v, loc, path, m, ArrayPart([], prelude));
    FoldStep([], prelude, part.violations, loc, path);
    assert !v.Arr? ==> |prelude| > 0;
    if |part.violations| > 0 then Invalid(part.violations) else Valid(Arr(part.items))
  }

  /**
   * What `validateArray` reports: the type, `const` and `enum` violations,
   * then what `items` adds; the array is valid exactly when both are empty.
   */
  lemma ArrayViolations(s: Schema, v: Value, loc: string, path: string, m: Matcher)
    ensures Violations(ValidateArray(s, v, loc, path, m))
         == Locate(CommonReasons(ArrayType, s, v), v, s, loc, path) + ItemViolations(s, v, loc, path, m)
  {
    var prelude := Locate(CommonReasons(ArrayType, s, v), v, s, loc, path);
    ArraySchemaViolations(s, v, loc, path, m, ArrayPart([], prelude));
  }

  /** `items` adds to what was collected exactly the violations `ItemViolations` lists. */
  lemma ArraySchemaViolations(s: Schema, v: Value, loc: string, path: string, m: Matcher, cur: ArrayPart)
    ensures ValidateArraySchema(s, v, loc, path, m, cur).violations == cur.violations + ItemViolations(s, v, loc, path, m)
  {
    match KeywordsOf(s).items
    case None =>
      assert cur.violations + [] == cur.violations;
    case Some(items) =>
      if !v.Arr? {
        assert cur.violations + [] == cur.violations;
      } else {
        match items
        case TupleItems(ss) =>
          if |v.elems| >= |ss| {
            TupleFoldViolations(s, v, loc, path, m, 0, cur);
          }
        case ListItems(_) =>
          ListFoldViolations(s, v, loc, path, m, 0, cur);
      }
  }

  // ---------------------------------------------------------------------------
  // Objects
  // ---------------------------------------------------------------------------

  datatype ObjectPart = ObjectPart(fields: seq<(string, Value)>, violations: seq<Violation>)

  /** `{...prev.object, [k]: resolved}` with the child's violations appended. */
  function Absorb(acc: ObjectPart, k: string, r: ValidationResult): (next: ObjectPart)
  {
    ObjectPart(Put(acc.fields, k, Resolved(r)), acc.violations + Violations(r))
  }

  /** A child result located below (`loc'`, `path'`) adds only violations located there. */
  lemma AbsorbUnder(acc: ObjectPart, k: string, r: ValidationResult, loc': string, path': string, loc: string, path: string)
    requires r.Invalid? ==> AllUnder(r.violations, loc', path')
    requires loc <= loc' && path <= path'
    ensures acc.violations <= Absorb(acc, k, r).violations
    ensures AllUnder(Absorb(acc, k, r).violations[|acc.violations|..], loc, path)
  {
    assert Absorb(acc, k, r).violations[|acc.violations|..] == Violations(r);
    forall i | 0 <= i < |Violations(r)| ensures Under(Violations(r)[i], loc, path) {
      PrefixTrans(loc, loc', Violations(r)[i].schemaLocation);
      PrefixTrans(path, path', Violations(r)[i].valuePath);
    }
  }

  /** `xs.filter(x => !ys.includes(x))`. */
  function Excluding(xs: seq<string>, ys: seq<string>): (r: seq<string>)
    ensures forall x :: x in r <==> x in xs && x !in ys
  {
    if |xs| == 0 then []
    else (if xs[0] in ys then [] else [xs[0]]) + Excluding(xs[1..], ys)
  }

  /** `keys.filter(k => value[k] !== undefined)` over the given keys. */
  function DefinedAmong(ks: seq<string>, fields: seq<(string, Value)>): (r: seq<string>)
    ensures forall x :: x in r <==> x in ks && Get(fields, x) != Undefined
  {
    if |ks| == 0 then []
    else (if Get(fields, ks[0]) != Undefined then [ks[0]] else []) + DefinedAmong(ks[1..], fields)
  }

  /**
   * `filter` keeps order: filtering a concatenation concatenates the
   * filtered parts, so each name stays where it stood.
   */
  lemma {:induction false} ExcludingConcat(xs: seq<string>, xs': seq<string>, ys: seq<string>)
    ensures Excluding(xs + xs', ys) == Excluding(xs, ys) + Excluding(xs', ys)
    ensures |xs'| == 1 ==> Excluding(xs', ys) == if xs'[0] in ys then [] else xs'
    ensures Excluding([], ys) == []
    decreases |xs|
  {
    if |xs| > 0 {
      assert (xs + xs')[1..] == xs[1..] + xs';
      ExcludingConcat(xs[1..], xs', ys);
    } else {
      assert xs + xs' == xs';
    }
  }

  /** As for `Excluding`: the defined keys keep the order of the keys they are drawn from. */
  lemma {:induction false} DefinedAmongConcat(ks: seq<string>, ks': seq<string>, fields: seq<(string, Value)>)
    ensures DefinedAmong(ks + ks', fields) == DefinedAmong(ks, fields) + DefinedAmong(ks', fields)
    ensures |ks'| == 1 ==> DefinedAmong(ks', fields) == if Get(fields, ks'[0]) != Undefined then ks' else []
    ensures DefinedAmong([], fields) == []
    decreases |ks|
  {
    if |ks| > 0 {
      assert (ks + ks')[1..] == ks[1..] + ks';
      DefinedAmongConcat(ks[1..], ks', fields);
    } else {
      assert ks + ks' == ks';
    }
  }

  /** The own keys of an object whose value is not `undefined` (`validKeys`). */
  function DefinedKeys(fields: seq<(string, Value)>): seq<string>
  {
    DefinedAmong(Keys(fields), fields)
  }

  /** The `required` names with no defined value, in `required` order. */
  function MissingNames(s: Schema, fields: seq<(string, Value)>): seq<string>
  {
    Excluding(KeywordsOf(s).required.GetOr([]), DefinedKeys(fields))
  }

  /** `{[k]: value[k]}` for each `k` of `ks`, in order (`extraParts`). */
  function Pick(fields: seq<(string, Value)>, ks: seq<string>): (r: seq<(string, Value)>)
    ensures forall x :: x in Keys(r) <==> x in ks
    ensures forall x :: x in ks ==> Find(r, x) == Some(Get(fields, x))
    ensures DistinctKeys(r)
  {
    if |ks| == 0 then []
    else Put(Pick(fields, ks[..|ks| - 1]), ks[|ks| - 1], Get(fields, ks[|ks| - 1]))
  }

  function PropertyEntries(s: Schema): seq<(string, Schema)>
  {
    Entries(KeywordsOf(s).properties)
  }

  function PatternEntries(s: Schema): seq<(string, Schema)>
  {
    Entries(KeywordsOf(s).patternProperties)
  }

  /** Declared property `j` against its schema, at `<loc>/properties/<key>`, `<path>/<key>`. */
  function PropertyValidation(s: Schema, v: Value, loc: string, path: string, m: Matcher, j: nat): ValidationResult
    requires v.Obj? && j < |PropertyEntries(s)|
    decreases s, 0, 0
  {
    var ps := PropertyEntries(s);
    assert ps[j] in ps;
    var key := ps[j].0;
    Validate(ps[j].1, Get(v.fields, key), loc + "/properties/" + key, path + "/" + key, m)
  }

  /**
   * Whether declared property `j` reaches the rebuilt object: it is dropped,
   * with its violations, when it is invalid and its value is falsy.
   */
  predicate PropertyKept(s: Schema, v: Value, loc: string, path: string, m: Matcher, j: nat)
    requires v.Obj? && j < |PropertyEntries(s)|
    decreases s, 0, 1
  {
    PropertyValidation(s, v, loc, path, m, j).Valid? || !Falsy(Get(v.fields, PropertyEntries(s)[j].0))
  }

  /** The violations the declared properties from entry `i` on report: those of each kept property, in order. */
  function PropertyViolations(s: Schema, v: Value, loc: string, path: string, m: Matcher, i: nat): seq<Violation>
    requires v.Obj? && i <= |PropertyEntries(s)|
    decreases s, 0, |PropertyEntries(s)| - i + 2
  {
    if i == |PropertyEntries(s)| then []
    else
      (if PropertyKept(s, v, loc, path, m, i) then Violations(PropertyValidation(s, v, loc, path, m, i)) else [])
      + PropertyViolations(s, v, loc, path, m, i + 1)
  }

  /** `getPropertiesPart`: the `reduce` over the declared properties, from entry `i`. */
  function PropertiesPart(s: Schema, v: Value, loc: string, path: string, m: Matcher, i: nat, acc: ObjectPart): (r: ObjectPart)
    requires v.Obj? && i <= |PropertyEntries(s)|
    ensures acc.violations <= r.violations
    ensures AllUnder(r.violations[|acc.violations|..], loc + "/properties/", path + "/")
    ensures DistinctKeys(acc.fields) ==> DistinctKeys(r.fields)
    ensures forall x :: x in Keys(acc.fields) ==> x in Keys(r.fields)
    ensures forall x :: NoneKept(s, v, loc, path, m, i, x) ==> Find(r.fields, x) == Find(acc.fields, x)
    ensures DistinctKeys(PropertyEntries(s)) ==>
      forall j :: i <= j < |PropertyEntries(s)| && PropertyKept(s, v, loc, path, m, j) ==>
        Find(r.fields, PropertyEntries(s)[j].0) == Some(Resolved(PropertyValidation(s, v, loc, path, m, j)))
    decreases s, 1, |PropertyEntries(s)| - i
  {
    var ps := PropertyEntries(s);
    if i == |ps| then acc
    else
      var key := ps[i].0;
      var validation := PropertyValidation(s, v, loc, path, m, i);
      var kept := PropertyKept(s, v, loc, path, m, i);
      var step := if kept then Absorb(acc, key, validation) else acc;
      var r := PropertiesPart(s, v, loc, path, m, i + 1, step);
      AbsorbUnder(acc, key, validation, loc + "/properties/" + key, path + "/" + key, loc + "/properties/", path + "/");
      FoldStep(acc.violations, step.violations, r.violations, loc + "/properties/", path + "/");
      r
  }

  /** No declared property from entry `i` on with key `x` reaches the rebuilt object. */
  predicate NoneKept(s: Schema, v: Value, loc: string, path: string, m: Matcher, i: nat, x: string)
    requires v.Obj?
    decreases s, 0, 2
  {
    forall j :: i <= j < |PropertyEntries(s)| && PropertyEntries(s)[j].0 == x ==> !PropertyKept(s, v, loc, path, m, j)
  }

  /** Pattern `i` against the value of key `k`, at `<loc>/patternProperties/<pattern>`, `<path>/<k>`. */
  function PatternValidation(s: Schema, v: Value, loc: string, path: string, m: Matcher, i: nat, k: string): ValidationResult
    requires v.Obj? && i < |PatternEntries(s)|
    decreases s, 0, 0
  {
    var pats := PatternEntries(s);
    assert pats[i] in pats;
    Validate(pats[i].1, Get(v.fields, k), loc + "/patternProperties/" + pats[i].0, path + "/" + k, m)
  }

  /** What pattern `i` reports: the violations of the key it keeps, if any. */
  function PatternKeyViolations(s: Schema, v: Value, loc: string, path: string, m: Matcher, i: nat): seq<Violation>
    requires v.Obj? && i < |PatternEntries(s)|
    decreases s, 0, 1
  {
    match LastMatch(s, v, m, i, 0)
    case None => []
    case Some(k) => Violations(PatternValidation(s, v, loc, path, m, i, k))
  }

  /** The violations the patterns from `i` on report, pattern by pattern. */
  function PatternViolations(s: Schema, v: Value, loc: string, path: string, m: Matcher, i: nat): seq<Violation>
    requires v.Obj? && i <= |PatternEntries(s)|
    decreases s, 0, 2 + |PatternEntries(s)| - i
  {
    if i == |PatternEntries(s)| then []
    else PatternKeyViolations(s, v, loc, path, m, i) + PatternViolations(s, v, loc, path, m, i + 1)
  }

  /**
   * The key the inner `reduce` of `getPatternPropertiesPart` ends on for
   * pattern `i`, over the keys of the value from `j` on: the last one the
   * pattern matches, if any.
   */
  function LastMatch(s: Schema, v: Value, m: Matcher, i: nat, j: nat): (r: Option<string>)
    requires v.Obj? && i < |PatternEntries(s)| && j <= |Keys(v.fields)|
    ensures r.None? <==> forall k :: j <= k < |Keys(v.fields)| ==> !m(Keys(v.fields)[k], PatternEntries(s)[i].0)
    ensures r.Some? ==> exists k :: && j <= k < |Keys(v.fields)| && Keys(v.fields)[k] == r.value
                                    && m(r.value, PatternEntries(s)[i].0)
                                    && forall q :: k < q < |Keys(v.fields)| ==> !m(Keys(v.fields)[q], PatternEntries(s)[i].0)
    decreases |Keys(v.fields)| - j
  {
    var keys := Keys(v.fields);
    if j == |keys| then None
    else
      match LastMatch(s, v, m, i, j + 1)
      case Some(k) => Some(k)
      case None => if m(keys[j], PatternEntries(s)[i].0) then Some(keys[j]) else None
  }

  /** Pattern `p` keeps key `x`: `x` is the last key of the value that `p` matches. */
  predicate Picks(s: Schema, v: Value, m: Matcher, p: nat, x: string)
    requires v.Obj?
  {
    p < |PatternEntries(s)| && LastMatch(s, v, m, p, 0) == Some(x)
  }

  /** Some pattern from `i` on keeps key `x`. */
  predicate PickedFrom(s: Schema, v: Value, m: Matcher, i: nat, x: string)
    requires v.Obj?
  {
    exists p :: i <= p < |PatternEntries(s)| && Picks(s, v, m, p, x)
  }

  /** Pattern `p` is the last pattern that keeps key `x`, so its result is the one the key holds. */
  predicate LastPick(s: Schema, v: Value, m: Matcher, p: nat, x: string)
    requires v.Obj?
  {
    Picks(s, v, m, p, x) && !PickedFrom(s, v, m, p + 1, x)
  }

  /** Some pattern among `pats` matches key `x`. */
  predicate MatchesSome(pats: seq<(string, Schema)>, x: string, m: Matcher)
  {
    exists p :: 0 <= p < |pats| && m(x, pats[p].0)
  }

  /**
   * `r` is `outer` with what pattern `i` may add: violations appended below
   * `<loc>/patternProperties/` and `<path>/`, no key lost, distinct keys kept
   * distinct, and every key the pattern does not match as it was.
   */
  ghost predicate PatternExtends(s: Schema, v: Value, loc: string, path: string, m: Matcher, i: nat, outer: ObjectPart, r: ObjectPart)
    requires v.Obj? && i < |PatternEntries(s)|
  {
    && outer.violations <= r.violations
    && AllUnder(r.violations[|outer.violations|..], loc + "/patternProperties/", path + "/")
    && (DistinctKeys(outer.fields) ==> DistinctKeys(r.fields))
    && (forall x :: x in Keys(outer.fields) ==> x in Keys(r.fields))
    && (forall x :: (x !in Keys(v.fields) || !m(x, PatternEntries(s)[i].0)) ==> Find(r.fields, x) == Find(outer.fields, x))
  }

  lemma PatternExtendsItself(s: Schema, v: Value, loc: string, path: string, m: Matcher, i: nat, acc: ObjectPart)
    requires v.Obj? && i < |PatternEntries(s)|
    ensures PatternExtends(s, v, loc, path, m, i, acc, acc)
  {
    assert acc.violations[|acc.violations|..] == [];
  }

  /**
   * The inner `reduce` of `getPatternPropertiesPart` over the keys of the
   * value from `j` on that match pattern `i`. Its step starts from `outer`,
   * the accumulator of the enclosing `reduce`, not from its own `acc`: each
   * matching key replaces what the one before it stored, so only the last
   * matching key is kept (`PatternKeysPartKeepsLastMatch`). A failing key is
   * stored as `undefined`, whatever its value.
   */
  function PatternKeysPart(s: Schema, v: Value, loc: string, path: string, m: Matcher, i: nat, j: nat, outer: ObjectPart, acc: ObjectPart): (r: ObjectPart)
    requires v.Obj? && i < |PatternEntries(s)| && j <= |Keys(v.fields)|
    ensures r == acc || PatternExtends(s, v, loc, path, m, i, outer, r)
    decreases s, 1, |Keys(v.fields)| - j
  {
    var keys := Keys(v.fields);
    if j == |keys| then acc
    else
      var key := keys[j];
      var validation := PatternValidation(s, v, loc, path, m, i, key);
      var step := if m(key, PatternEntries(s)[i].0) then Absorb(outer, key, validation) else acc;
      AbsorbUnder(outer, key, validation, loc + "/patternProperties/" + PatternEntries(s)[i].0, path + "/" + key,
                  loc + "/patternProperties/", path + "/");
      PatternKeysPart(s, v, loc, path, m, i, j + 1, outer, step)
  }

  /** `getPatternPropertiesPart`: the outer `reduce` over the patterns, from pattern `i`. */
  function PatternPropertiesPart(s: Schema, v: Value, loc: string, path: string, m: Matcher, i: nat, acc: ObjectPart): (r: ObjectPart)
    requires v.Obj? && i <= |PatternEntries(s)|
    ensures acc.violations <= r.violations
    ensures AllUnder(r.violations[|acc.violations|..], loc + "/patternProperties/", path + "/")
    ensures DistinctKeys(acc.fields) ==> DistinctKeys(r.fields)
    ensures forall x :: x in Keys(acc.fields) ==> x in Keys(r.fields)
    ensures forall x :: (x !in Keys(v.fields) || !MatchesSome(PatternEntries(s)[i..], x, m)) ==> Find(r.fields, x) == Find(acc.fields, x)
    decreases s, 2, |PatternEntries(s)| - i
  {
    var pats := PatternEntries(s);
    if i == |pats| then acc
    else
      var step := PatternKeysPart(s, v, loc, path, m, i, 0, acc, acc);
      PatternExtendsItself(s, v, loc, path, m, i, acc);
      assert PatternExtends(s, v, loc, path, m, i, acc, step);
      var r := PatternPropertiesPart(s, v, loc, path, m, i + 1, step);
      FoldStep(acc.violations, step.violations, r.violations, loc + "/patternProperties/", path + "/");
      forall x | MatchesSome(pats[i + 1..], x, m) || m(x, pats[i].0) ensures MatchesSome(pats[i..], x, m) {
        if m(x, pats[i].0) {
          assert pats[i..][0] == pats[i];
        } else {
          var p :| 0 <= p < |pats[i + 1..]| && m(x, pats[i + 1..][p].0);
          assert pats[i..][p + 1] == pats[i + 1..][p];
        }
      }
      r
  }

  /** A key of the value that some pattern of `patternProperties` keeps. */
  predicate Claimed(s: Schema, v: Value, m: Matcher, x: string)
    requires v.Obj?
  {
    PickedFrom(s, v, m, 0, x)
  }

  /**
   * The object after `properties` and `patternProperties` have been merged
   * in (fields: `MergedFields`; violations: `MergedViolations`).
   */
  function MergedProperties(s: Schema, v: Value, loc: string, path: string, m: Matcher, cur: ObjectPart): (r: ObjectPart)
    requires v.Obj?
    ensures cur.violations <= r.violations
    ensures AllUnder(r.violations[|cur.violations|..], loc, path)
    ensures DistinctKeys(cur.fields) ==> DistinctKeys(r.fields)
    decreases s, 3, 0
  {
    var props := PropertiesPart(s, v, loc, path, m, 0, cur);
    var r := PatternPropertiesPart(s, v, loc, path, m, 0, props);
    var fromProps, fromPatterns := props.violations[|cur.violations|..], r.violations[|props.violations|..];
    assert r.violations[|cur.violations|..] == fromProps + fromPatterns;
    AllUnderWiden(fromProps, loc, "/properties/", path, "/");
    AllUnderWiden(fromPatterns, loc, "/patternProperties/", path, "/");
    AllUnderConcat(fromProps, fromPatterns, loc, path);
    r
  }

  /**
   * The fields of the merged object: a key that some pattern keeps holds the
   * result of the last such pattern; otherwise a kept declared property
   * holds its own result; any other key is as it was. A key a pattern
   * matches but does not keep is not touched by that pattern.
   */
  lemma MergedFields(s: Schema, v: Value, loc: string, path: string, m: Matcher, cur: ObjectPart)
    requires v.Obj?
    ensures var r := MergedProperties(s, v, loc, path, m, cur);
      && (forall p, x :: LastPick(s, v, m, p, x) ==>
            Find(r.fields, x) == Some(Resolved(PatternValidation(s, v, loc, path, m, p, x))))
      && (DistinctKeys(PropertyEntries(s)) ==>
            forall j :: 0 <= j < |PropertyEntries(s)| && PropertyKept(s, v, loc, path, m, j) && !Claimed(s, v, m, PropertyEntries(s)[j].0) ==>
              Find(r.fields, PropertyEntries(s)[j].0) == Some(Resolved(PropertyValidation(s, v, loc, path, m, j))))
      && (forall x :: NoneKept(s, v, loc, path, m, 0, x) && !Claimed(s, v, m, x) ==> Find(r.fields, x) == Find(cur.fields, x))
  {
    var props := PropertiesPart(s, v, loc, path, m, 0, cur);
    PatternPropertiesPartFields(s, v, loc, path, m, 0, props);
  }

  /**
   * The defined keys of the value that are not yet keys of the merged object
   * (`extraProperties`): keys stored by `properties` count as matched, keys
   * a failing falsy property left out do not.
   */
  function ExtraKeys(v: Value, merged: ObjectPart): seq<string>
    requires v.Obj?
  {
    Excluding(DefinedKeys(v.fields), Keys(merged.fields))
  }

  /** An extra key against an `additionalProperties` schema, at `<loc>/additionalProperties`, `<path>/<k>`. */
  function AdditionalValidation(s: Schema, v: Value, loc: string, path: string, m: Matcher, k: string): ValidationResult
    requires v.Obj? && KeywordsOf(s).additionalProperties.Some?
    decreases s, 0, 0
  {
    Validate(KeywordsOf(s).additionalProperties.value, Get(v.fields, k), loc + "/additionalProperties", path + "/" + k, m)
  }

  /**
   * Whether extra key `k` reaches the rebuilt object: it is dropped, with its
   * violations, when it fails and its value is falsy.
   */
  predicate AdditionalKept(s: Schema, v: Value, loc: string, path: string, m: Matcher, k: string)
    requires v.Obj? && KeywordsOf(s).additionalProperties.Some?
    decreases s, 0, 1
  {
    AdditionalValidation(s, v, loc, path, m, k).Valid? || !Falsy(Get(v.fields, k))
  }

  /** The violations the extra keys from `ks[j]` on report: those of each kept key, in order. */
  function AdditionalViolations(s: Schema, v: Value, loc: string, path: string, m: Matcher, ks: seq<string>, j: nat): seq<Violation>
    requires v.Obj? && KeywordsOf(s).additionalProperties.Some? && j <= |ks|
    decreases s, 0, |ks| - j + 2
  {
    if j == |ks| then []
    else
      (if AdditionalKept(s, v, loc, path, m, ks[j]) then Violations(AdditionalValidation(s, v, loc, path, m, ks[j])) else [])
      + AdditionalViolations(s, v, loc, path, m, ks, j + 1)
  }

  /**
   * The `reduce` of `getAdditionalPropertiesPart` over the extra keys, from
   * key `j`: each kept key holds its result, every other key is as it was.
   */
  function AdditionalFold(s: Schema, v: Value, loc: string, path: string, m: Matcher, ks: seq<string>, j: nat, acc: ObjectPart): (r: ObjectPart)
    requires v.Obj? && KeywordsOf(s).additionalProperties.Some? && j <= |ks|
    ensures acc.violations <= r.violations
    ensures AllUnder(r.violations[|acc.violations|..], loc + "/additionalProperties", path + "/")
    ensures DistinctKeys(acc.fields) ==> DistinctKeys(r.fields)
    ensures forall x :: x in Keys(acc.fields) ==> x in Keys(r.fields)
    ensures forall x :: x !in ks ==> Find(r.fields, x) == Find(acc.fields, x)
    decreases s, 1, |ks| - j
  {
    if j == |ks| then acc
    else
      var key := ks[j];
      var validation := AdditionalValidation(s, v, loc, path, m, key);
      var kept := AdditionalKept(s, v, loc, path, m, key);
      var step := if kept then Absorb(acc, key, validation) else acc;
      var r := AdditionalFold(s, v, loc, path, m, ks, j + 1, step);
      AbsorbUnder(acc, key, validation, loc + "/additionalProperties", path + "/" + key, loc + "/additionalProperties", path + "/");
      FoldStep(acc.violations, step.violations, r.violations, loc + "/additionalProperties", path + "/");
      r
  }

  /**
   * `getAdditionalPropertiesPart`: with `additionalProperties` absent or
   * true the extra keys are copied unchanged; with false one violation at
   * `<loc>/additionalProperties` and the object's own path lists them; with
   * a schema each is validated against it.
   */
  function AdditionalPropertiesPart(s: Schema, v: Value, loc: string, path: string, m: Matcher, extra: seq<string>, acc: ObjectPart): (r: ObjectPart)
    requires v.Obj?
    ensures acc.violations <= r.violations
    ensures AllUnder(r.violations[|acc.violations|..], loc + "/additionalProperties", path)
    ensures DistinctKeys(acc.fields) ==> DistinctKeys(r.fields)
    ensures forall x :: x !in extra ==> Find(r.fields, x) == Find(acc.fields, x)
    ensures KeywordsOf(s).additionalProperties in {None, Some(BoolSchema(true))} ==>
      forall x :: x in extra ==> Find(r.fields, x) == Some(Get(v.fields, x))
    ensures KeywordsOf(s).additionalProperties == Some(BoolSchema(false)) && |extra| > 0 ==>
      r == ObjectPart(acc.fields, acc.violations + [Violation(v, BoolSchema(false), AdditionalProperties(extra), loc + "/additionalProperties", path)])
    decreases s, 3, 0
  {
    if |extra| == 0 then acc
    else
      var extraParts := Pick(v.fields, extra);
      match KeywordsOf(s).additionalProperties
      case None => ObjectPart(Merge(acc.fields, extraParts), acc.violations)
      case Some(BoolSchema(true)) => ObjectPart(Merge(acc.fields, extraParts), acc.violations)
      case Some(BoolSchema(false)) =>
        var r := ObjectPart(acc.fields, acc.violations + [Violation(v, BoolSchema(false), AdditionalProperties(extra), loc + "/additionalProperties", path)]);
        assert r.violations[|acc.violations|..] == [Violation(v, BoolSchema(false), AdditionalProperties(extra), loc + "/additionalProperties", path)];
        r
      case Some(Node(_)) =>
        var r := AdditionalFold(s, v, loc, path, m, Keys(extraParts), 0, acc);
        AllUnderWiden(r.violations[|acc.violations|..], loc + "/additionalProperties", "", path, "/");
        assert loc + "/additionalProperties" + "" == loc + "/additionalProperties";
        r
  }

  /** `properties` reports exactly the violations of each kept declared property from entry `i` on, in order. */
  lemma {:induction false} PropertiesPartViolations(s: Schema, v: Value, loc: string, path: string, m: Matcher, i: nat, acc: ObjectPart)
    requires v.Obj? && i <= |PropertyEntries(s)|
    ensures PropertiesPart(s, v, loc, path, m, i, acc).violations == acc.violations + PropertyViolations(s, v, loc, path, m, i)
    decreases |PropertyEntries(s)| - i
  {
    if i == |PropertyEntries(s)| {
      assert acc.violations + [] == acc.violations;
    } else {
      var key := PropertyEntries(s)[i].0;
      var validation := PropertyValidation(s, v, loc, path, m, i);
      var kept := PropertyKept(s, v, loc, path, m, i);
      var step := if kept then Absorb(acc, key, validation) else acc;
      assert PropertiesPart(s, v, loc, path, m, i, acc) == PropertiesPart(s, v, loc, path, m, i + 1, step);
      PropertiesPartViolations(s, v, loc, path, m, i + 1, step);
      var here := if kept then Violations(validation) else [];
      assert step.violations == acc.violations + here;
      ConcatAssoc(acc.violations, here, PropertyViolations(s, v, loc, path, m, i + 1));
    }
  }

  /**
   * The inner `reduce` for pattern `i` ends on the last key from `j` on that
   * the pattern matches: `outer` with that key's result put in and its
   * violations appended. The keys matched before it are overwritten, not
   * accumulated; when no key matches, the `reduce` returns its seed.
   */
  lemma {:induction false} PatternKeysPartKeepsLastMatch(s: Schema, v: Value, loc: string, path: string, m: Matcher, i: nat, j: nat, outer: ObjectPart, acc: ObjectPart)
    requires v.Obj? && i < |PatternEntries(s)| && j <= |Keys(v.fields)|
    ensures PatternKeysPart(s, v, loc, path, m, i, j, outer, acc)
         == match LastMatch(s, v, m, i, j)
            case None => acc
            case Some(k) => Absorb(outer, k, PatternValidation(s, v, loc, path, m, i, k))
    decreases |Keys(v.fields)| - j
  {
    var keys := Keys(v.fields);
    if j < |keys| {
      var key := keys[j];
      var step := if m(key, PatternEntries(s)[i].0) then Absorb(outer, key, PatternValidation(s, v, loc, path, m, i, key)) else acc;
      assert PatternKeysPart(s, v, loc, path, m, i, j, outer, acc) == PatternKeysPart(s, v, loc, path, m, i, j + 1, outer, step);
      PatternKeysPartKeepsLastMatch(s, v, loc, path, m, i, j + 1, outer, step);
    }
  }

  /** The patterns from `i` on report, pattern by pattern, the violations of the key each keeps. */
  lemma {:induction false} PatternPropertiesPartViolations(s: Schema, v: Value, loc: string, path: string, m: Matcher, i: nat, acc: ObjectPart)
    requires v.Obj? && i <= |PatternEntries(s)|
    ensures PatternPropertiesPart(s, v, loc, path, m, i, acc).violations == acc.violations + PatternViolations(s, v, loc, path, m, i)
    decreases |PatternEntries(s)| - i
  {
    if i == |PatternEntries(s)| {
      assert acc.violations + [] == acc.violations;
    } else {
      var step := PatternKeysPart(s, v, loc, path, m, i, 0, acc, acc);
      assert PatternPropertiesPart(s, v, loc, path, m, i, acc) == PatternPropertiesPart(s, v, loc, path, m, i + 1, step);
      PatternKeysPartKeepsLastMatch(s, v, loc, path, m, i, 0, acc, acc);
      assert step.violations == acc.violations + PatternKeyViolations(s, v, loc, path, m, i);
      PatternPropertiesPartViolations(s, v, loc, path, m, i + 1, step);
      ConcatAssoc(acc.violations, PatternKeyViolations(s, v, loc, path, m, i), PatternViolations(s, v, loc, path, m, i + 1));
    }
  }

  /**
   * The patterns from `i` on: a key whose last keeping pattern is `p` holds
   * that pattern's result, and a key no pattern from `i` on keeps is as it
   * was, even where some of them match it.
   */
  lemma {:induction false} PatternPropertiesPartFields(s: Schema, v: Value, loc: string, path: string, m: Matcher, i: nat, acc: ObjectPart)
    requires v.Obj? && i <= |PatternEntries(s)|
    ensures var r := PatternPropertiesPart(s, v, loc, path, m, i, acc);
      && (forall p, x :: i <= p && LastPick(s, v, m, p, x) ==>
            Find(r.fields, x) == Some(Resolved(PatternValidation(s, v, loc, path, m, p, x))))
      && (forall x :: !PickedFrom(s, v, m, i, x) ==> Find(r.fields, x) == Find(acc.fields, x))
    decreases |PatternEntries(s)| - i
  {
    if i < |PatternEntries(s)| {
      var step := PatternKeysPart(s, v, loc, path, m, i, 0, acc, acc);
      var r := PatternPropertiesPart(s, v, loc, path, m, i + 1, step);
      assert PatternPropertiesPart(s, v, loc, path, m, i, acc) == r;
      PatternKeysPartKeepsLastMatch(s, v, loc, path, m, i, 0, acc, acc);
      PatternPropertiesPartFields(s, v, loc, path, m, i + 1, step);
      forall x | LastPick(s, v, m, i, x)
        ensures Find(r.fields, x) == Some(Resolved(PatternValidation(s, v, loc, path, m, i, x)))
      {
        assert Find(r.fields, x) == Find(step.fields, x);
      }
      forall x | !PickedFrom(s, v, m, i, x)
        ensures Find(r.fields, x) == Find(acc.fields, x)
      {
        assert !Picks(s, v, m, i, x);
        assert !PickedFrom(s, v, m, i + 1, x);
      }
    }
  }

  /** The merge reports the kept properties' violations, then those of the key each pattern keeps. */
  lemma MergedViolations(s: Schema, v: Value, loc: string, path: string, m: Matcher, cur: ObjectPart)
    requires v.Obj?
    ensures MergedProperties(s, v, loc, path, m, cur).violations
         == cur.violations + PropertyViolations(s, v, loc, path, m, 0) + PatternViolations(s, v, loc, path, m, 0)
  {
    var props := PropertiesPart(s, v, loc, path, m, 0, cur);
    PropertiesPartViolations(s, v, loc, path, m, 0, cur);
    PatternPropertiesPartViolations(s, v, loc, path, m, 0, props);
  }

  /** The fold over the extra keys from `ks[j]` on reports the violations of the kept keys, in order. */
  lemma {:induction false} AdditionalFoldViolations(s: Schema, v: Value, loc: string, path: string, m: Matcher, ks: seq<string>, j: nat, acc: ObjectPart)
    requires v.Obj? && KeywordsOf(s).additionalProperties.Some? && j <= |ks|
    ensures AdditionalFold(s, v, loc, path, m, ks, j, acc).violations == acc.violations + AdditionalViolations(s, v, loc, path, m, ks, j)
    decreases |ks| - j
  {
    if j == |ks| {
      assert acc.violations + [] == acc.violations;
    } else {
      var key := ks[j];
      var validation := AdditionalValidation(s, v, loc, path, m, key);
      var kept := AdditionalKept(s, v, loc, path, m, key);
      var step := if kept then Absorb(acc, key, validation) else acc;
      assert AdditionalFold(s, v, loc, path, m, ks, j, acc) == AdditionalFold(s, v, loc, path, m, ks, j + 1, step);
      AdditionalFoldViolations(s, v, loc, path, m, ks, j + 1, step);
      var here := if kept then Violations(validation) else [];
      assert step.violations == acc.violations + here;
      ConcatAssoc(acc.violations, here, AdditionalViolations(s, v, loc, path, m, ks, j + 1));
    }
  }

  /**
   * The fold over the extra keys from `ks[j]` on: each kept key holds its
   * result, every other key is as it was.
   */
  lemma {:induction false} AdditionalFoldFields(s: Schema, v: Value, loc: string, path: string, m: Matcher, ks: seq<string>, j: nat, acc: ObjectPart)
    requires v.Obj? && KeywordsOf(s).additionalProperties.Some? && j <= |ks|
    ensures var r := AdditionalFold(s, v, loc, path, m, ks, j, acc);
      && (forall x :: x in ks[j..] && AdditionalKept(s, v, loc, path, m, x) ==>
            Find(r.fields, x) == Some(Resolved(AdditionalValidation(s, v, loc, path, m, x))))
      && (forall x :: (x !in ks[j..] || !AdditionalKept(s, v, loc, path, m, x)) ==> Find(r.fields, x) == Find(acc.fields, x))
    decreases |ks| - j
  {
    if j < |ks| {
      var key := ks[j];
      var step := if AdditionalKept(s, v, loc, path, m, key) then Absorb(acc, key, AdditionalValidation(s, v, loc, path, m, key)) else acc;
      assert AdditionalFold(s, v, loc, path, m, ks, j, acc) == AdditionalFold(s, v, loc, path, m, ks, j + 1, step);
      AdditionalFoldFields(s, v, loc, path, m, ks, j + 1, step);
      assert ks[j..] == [key] + ks[j + 1..];
    }
  }

  /**
   * Against an `additionalProperties` schema, each extra key that is kept
   * holds its result, a dropped one is as it was, and the violations are
   * those of the kept keys in order.
   */
  lemma AdditionalSchemaFacts(s: Schema, v: Value, loc: string, path: string, m: Matcher, extra: seq<string>, acc: ObjectPart)
    requires v.Obj? && KeywordsOf(s).additionalProperties.Some? && KeywordsOf(s).additionalProperties.value.Node?
    ensures var r := AdditionalPropertiesPart(s, v, loc, path, m, extra, acc);
      && r.violations == acc.violations + AdditionalViolations(s, v, loc, path, m, Keys(Pick(v.fields, extra)), 0)
      && forall x :: x in extra ==>
           Find(r.fields, x) == if AdditionalKept(s, v, loc, path, m, x) then Some(Resolved(AdditionalValidation(s, v, loc, path, m, x))) else Find(acc.fields, x)
  {
    var extraParts := Pick(v.fields, extra);
    if |extra| == 0 {
      assert Keys(extraParts) == [];
      assert acc.violations + [] == acc.violations;
    } else {
      AdditionalFoldViolations(s, v, loc, path, m, Keys(extraParts), 0, acc);
      AdditionalFoldFields(s, v, loc, path, m, Keys(extraParts), 0, acc);
      assert Keys(extraParts)[0..] == Keys(extraParts);
    }
  }

  /** The violations of every key of the object checked as a string, at `<loc>/propertyNames`, `<path>/<key>`. */
  function PropertyNameViolations(names: Schema, keys: seq<string>, loc: string, path: string, m: Matcher): (r: seq<Violation>)
    ensures AllUnder(r, loc + "/propertyNames", path + "/")
  {
    if |keys| == 0 then []
    else
      var here := Violations(ValidateString(names, Str(keys[0]), loc + "/propertyNames", path + "/" + keys[0], m));
      var rest := PropertyNameViolations(names, keys[1..], loc, path, m);
      forall i | 0 <= i < |here| ensures Under(here[i], loc + "/propertyNames", path + "/") {
        PrefixTrans(path + "/", path + "/" + keys[0], here[i].valuePath);
      }
      AllUnderConcat(here, rest, loc + "/propertyNames", path + "/");
      here + rest
  }

  /** The missing-`required` violation, when a name is missing. */
  function MissingViolation(s: Schema, v: Value, loc: string, path: string): (r: seq<Violation>)
    requires v.Obj?
    ensures |r| > 0 <==> |MissingNames(s, v.fields)| > 0
    ensures |r| > 0 ==> r == [Violation(v, s, MissingRequired(MissingNames(s, v.fields)), loc, path)]
  {
    var missing := MissingNames(s, v.fields);
    if |missing| > 0 then [Violation(v, s, MissingRequired(missing), loc, path)] else []
  }

  /** What `propertyNames` reports: every key of the value checked as a string, when the keyword is present. */
  function NameViolations(s: Schema, v: Value, loc: string, path: string, m: Matcher): (r: seq<Violation>)
    requires v.Obj?
    ensures KeywordsOf(s).propertyNames.None? ==> r == []
    ensures AllUnder(r, loc + "/propertyNames", path + "/")
  {
    match KeywordsOf(s).propertyNames
    case None => []
    case Some(names) => PropertyNameViolations(names, Keys(v.fields), loc, path, m)
  }

  /**
   * What `minProperties` and `maxProperties` report, in that order: a
   * shortfall below a non-zero `minProperties`, and an excess over
   * `maxProperties`, counting every own key (`undefined` ones too).
   */
  function CountViolations(s: Schema, v: Value, loc: string, path: string): (r: seq<Violation>)
    requires v.Obj?
    ensures forall n: nat :: Violation(v, s, TooFewProperties(n), loc, path) in r <==>
      KeywordsOf(s).minProperties == Some(n) && n > 0 && |Keys(v.fields)| < n
    ensures forall n: nat :: Violation(v, s, TooManyProperties(n), loc, path) in r <==>
      KeywordsOf(s).maxProperties == Some(n) && |Keys(v.fields)| > n
    ensures forall e :: e in r ==> e.value == v && e.schema == s && e.schemaLocation == loc && e.valuePath == path
    ensures forall e :: e in r ==> e.reason.TooFewProperties? || e.reason.TooManyProperties?
    ensures |r| == 2 ==> r[0].reason.TooFewProperties? && r[1].reason.TooManyProperties?
  {
    var kw := KeywordsOf(s);
    var count := |Keys(v.fields)|;
    var tooFew := if kw.minProperties.Some? && kw.minProperties.value != 0 && count < kw.minProperties.value
                  then [Violation(v, s, TooFewProperties(kw.minProperties.value), loc, path)] else [];
    var tooMany := if kw.maxProperties.Some? && count > kw.maxProperties.value
                   then [Violation(v, s, TooManyProperties(kw.maxProperties.value), loc, path)] else [];
    tooFew + tooMany
  }

  /**
   * `validateObjectSchema`. For a plain object: the missing `required` names
   * come right after the violations collected so far, and every violation
   * collected so far is reported twice (the property merges restart from
   * them); anything else is returned as it came.
   */
  function ValidateObjectSchema(s: Schema, v: Value, loc: string, path: string, m: Matcher, cur: ObjectPart): (r: ObjectPart)
    ensures !v.Obj? ==> r == cur
    ensures cur.violations <= r.violations
    ensures AllUnder(cur.violations, loc, path) ==> AllUnder(r.violations, loc, path)
    ensures v.Obj? ==> multiset(cur.violations) + multiset(cur.violations) <= multiset(r.violations)
    ensures v.Obj? && |MissingNames(s, v.fields)| > 0 ==>
      |r.violations| > |cur.violations| &&
      r.violations[|cur.violations|] == Violation(v, s, MissingRequired(MissingNames(s, v.fields)), loc, path)
    ensures DistinctKeys(cur.fields) ==> DistinctKeys(r.fields)
    ensures v.Obj? ==>
      var merged := MergedProperties(s, v, loc, path, m, cur);
      var withAdditional := AdditionalPropertiesPart(s, v, loc, path, m, ExtraKeys(v, merged), merged);
      && r.fields == withAdditional.fields
      && r.violations == cur.violations + MissingViolation(s, v, loc, path) + withAdditional.violations
                         + NameViolations(s, v, loc, path, m) + CountViolations(s, v, loc, path)
    decreases s, 4, 0
  {
    if !v.Obj? then cur
    else
      var missing := MissingViolation(s, v, loc, path);
      var merged := MergedProperties(s, v, loc, path, m, cur);
      var withAdditional := AdditionalPropertiesPart(s, v, loc, path, m, ExtraKeys(v, merged), merged);
      var names := NameViolations(s, v, loc, path, m);
      var counts := CountViolations(s, v, loc, path);
      var r := ObjectPart(withAdditional.fields, cur.violations + missing + withAdditional.violations + names + counts);
      ObjectSchemaFacts(cur, missing, merged, withAdditional, names, counts, loc, path);
      r
  }

  lemma ObjectSchemaFacts(cur: ObjectPart, missing: seq<Violation>, merged: ObjectPart, withAdditional: ObjectPart,
                          names: seq<Violation>, counts: seq<Violation>, loc: string, path: string)
    requires cur.violations <= merged.violations && merged.violations <= withAdditional.violations
    requires AllUnder(missing, loc, path)
    requires AllUnder(merged.violations[|cur.violations|..], loc, path)
    requires AllUnder(withAdditional.violations[|merged.violations|..], loc + "/additionalProperties", path)
    requires AllUnder(names, loc + "/propertyNames", path + "/")
    requires AllUnder(counts, loc, path)
    ensures var all := cur.violations + missing + withAdditional.violations + names + counts;
      && cur.violations <= all
      && (AllUnder(cur.violations, loc, path) ==> AllUnder(all, loc, path))
      && multiset(cur.violations) + multiset(cur.violations) <= multiset(all)
      && multiset(withAdditional.violations) <= multiset(all)
      && (|missing| > 0 ==> |all| > |cur.violations| && all[|cur.violations|] == missing[0])
  {
    var invalidations := cur.violations + missing;
    var all := invalidations + withAdditional.violations + names + counts;
    assert all[..|cur.violations|] == invalidations[..|cur.violations|];
    assert invalidations == cur.violations + invalidations[|cur.violations|..];
    if |missing| > 0 {
      assert all[|cur.violations|] == invalidations[|cur.violations|];
    }
    assert withAdditional.violations == cur.violations + merged.violations[|cur.violations|..] + withAdditional.violations[|merged.violations|..];
    if AllUnder(cur.violations, loc, path) {
      AllUnderConcat(cur.violations, invalidations[|cur.violations|..], loc, path);
      AllUnderWiden(withAdditional.violations[|merged.violations|..], loc, "/additionalProperties", path, "");
      assert path + "" == path;
      AllUnderConcat(cur.violations, merged.violations[|cur.violations|..], loc, path);
      AllUnderConcat(cur.violations + merged.violations[|cur.violations|..], withAdditional.violations[|merged.violations|..], loc, path);
      AllUnderWiden(names, loc, "/propertyNames", path, "/");
      AllUnderConcat(invalidations, withAdditional.violations, loc, path);
      AllUnderConcat(invalidations + withAdditional.violations, names, loc, path);
      AllUnderConcat(invalidations + withAdditional.violations + names, counts, loc, path);
    }
  }

  /**
   * `validateObject`. A valid result is a plain object with no key twice.
   */
  function ValidateObject(s: Schema, v: Value, loc: string, path: string, m: Matcher): (r: ValidationResult)
    ensures r.Invalid? ==> |r.violations| > 0 && AllUnder(r.violations, loc, path)
    ensures r.Valid? ==> v.Obj? && r.result.Obj? && DistinctKeys(r.result.fields)
    decreases s, 5, 0
  {
    var prelude := Locate(CommonReasons(ObjectType, s, v), v, s, loc, path);
    assert DistinctKeys<Value>([]);
    assert AllUnder(prelude, loc, path);
    var part := ValidateObjectSchema(s, v, loc, path, m, ObjectPart([], prelude));
    if |part.violations| > 0 then Invalid(part.violations) else Valid(Obj(part.fields))
  }

  // ---------------------------------------------------------------------------
  // Reason texts
  // ---------------------------------------------------------------------------

  /** The text renderings the source leaves to the JavaScript runtime. */
  datatype Printer = Printer(
    number: real -> string,  // `${n}` of a number
    text: Value -> string,   // `${v}` of any value (`String(v)`)
    json: Value -> string)   // `JSON.stringify(v)`

  /** `${n}` of a non-negative integer. */
  function NatToString(n: nat): string
  {
    if n < 10 then [DigitChar(n)] else NatToString(n / 10) + [DigitChar(n % 10)]
  }

  function DigitChar(d: nat): char
    requires d < 10
  {
    ['0', '1', '2', '3', '4', '5', '6', '7', '8', '9'][d]
  }

  /** `xs.join(sep)`. */
  function Join(xs: seq<string>, sep: string): string
  {
    if |xs| == 0 then "" else if |xs| == 1 then xs[0] else xs[0] + sep + Join(xs[1..], sep)
  }

  /** The elements of an `enum`, each printed as the given style prints it inside a list. */
  function OptionTexts(p: Printer, style: Style, os: seq<Value>): seq<string>
  {
    if |os| == 0 then []
    else
      var o := os[0];
      var t := match style
        case Quoted => "'" + p.text(o) + "'"
        case Plain => if o == Null || o == Undefined then "" else p.text(o)  // `Array.prototype.join`
        case AsJson => p.json(o);
      [t] + OptionTexts(p, style, os[1..])
  }

  /** The `reason` string of a violation. */
  function Render(r: Reason, p: Printer): string
  {
    match r
    case FalseSchema => "Nothing validates against a false schema"
    case NoDefault => "Value should not be undefined, schema does not have a default value"
    case WrongType(t, actual) => "Value should have been a " + TypeName(t) + " but was of type " + actual
    case NotExactly(Quoted, c) => "Value should have been exactly '" + p.text(c) + "'"
    case NotExactly(Plain, c) => "Value should have been exactly " + p.text(c)
    case NotExactly(AsJson, c) => "Value should have been exactly " + p.json(c)
    case NotOneOf(style, os) => "Value should have been one of [" + Join(OptionTexts(p, style, os), ", ") + "]"
    case BelowMinLength(n) => "Value should have a minimum length of " + NatToString(n) + " character(s)"
    case AboveMaxLength(n) => "Value should have a maximum length of " + NatToString(n) + " character(s)"
    case NoPatternMatch(pattern) => "Value should match the following pattern /" + pattern + "/"
    case BelowMinimum(x) => "Value should have a minimum value of " + p.number(x)
    case NotAboveExclusiveMinimum(x) => "Value should have an exclusive minimum value of " + p.number(x)
    case AboveMaximum(x) => "Value should have a maximum value of " + p.number(x)
    case NotBelowExclusiveMaximum(x) => "Value should have an exclusive maximum value of " + p.number(x)
    case NotMultipleOf(x) => "Value should be a multiple of " + p.number(x)
    case NotInteger => "Value should have been an integer"
    case TupleLength(n, actual) => "Should have tuple length " + NatToString(n) + " but was " + NatToString(actual)
    case MissingRequired(names) => "Value should have all required properties but is missing [" + Join(names, ", ") + "]"
    case AdditionalProperties(names) => "Should have no additional properties, found [" + Join(names, ",") + "]"
    case TooFewProperties(n) => "Object should have a minimum of " + NatToString(n) + " properties"
    case TooManyProperties(n) => "Object should have a maximum of " + NatToString(n) + " properties"
  }
}
