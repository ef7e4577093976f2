# json-schema-builder: the validator and the schema builder

This project models two files of `json-schema-builder`, a TypeScript library for writing JSON Schema draft-07 documents and checking values against them:

- **`SchemaValidator`** (`src/schema-validator.ts`) validates a value against a schema, recursively.
  - The result is either `Valid`, carrying the value as the validator rebuilds it (defaults substituted, pattern-matched and additional properties merged in), or `Invalid`, carrying an ordered list of violations.
  - Each violation records the offending value, the schema, a reason, the schema location (`#/properties/a`, …) and the value path (`#/a`, …).
- **`S`** and **`Schemas`** (`src/json-schema.ts`):
  - `S` builds schema nodes: `S.string()`, `S.number()`, `S.integer()`, `S.boolean()`, `S.null()`, `S.array()`, `S.object()`, `S.$ref()`, plus the instance methods `ref`, `object` and `arrayOf`.
  - `Schemas` is a registry of named definitions under one location, `#/definitions` by default. It hands each definition callback a builder that points back into the registry.

## Files

| file | module | contents |
|---|---|---|
| `wrappers.dfy` | `Wrappers` | `Option` |
| `json.dfy` | `Json` | JavaScript values (with `undefined`), ordered objects, object spread, truthiness, `typeof`, `Math.floor(x) === x` |
| `schema.dfy` | `Schema` | the draft-07 schema shape: a boolean schema or a node of optional keywords |
| `schema_validator.dfy` | `SchemaValidator` | the validator: one function per method of the class, and the reason texts |
| `validator_properties.dfy` | `SchemaValidatorProperties` | lemmas relating the validator's operations |
| `reason_texts.dfy` | `ReasonTexts` | lemmas about the reason strings |
| `json_schema.dfy` | `JsonSchema` | the `S` builder and the `Schemas` registry (a class) |
| `builder_validation.dfy` | `BuilderValidation` | what the built schemas accept, including replays of two of the source's own test cases |

## How the model maps onto the source

- **A value** is a `Json.Value`.
  - `Undefined` stands for `undefined`. It is the value of a missing key, of an absent `const` or `default`, and of a property that failed validation in a rebuilt object.
  - Numbers are `real`.
  - Objects are ordered `(key, value)` sequences. `Json.Put` is `{...o, [k]: v}`: an existing key keeps its place, a new one is appended. `Json.Merge` is `{...a, ...b}`.
  - Only objects whose keys are distinct stand for JavaScript objects. The validator and its lemmas also accept a sequence that repeats a key, but such an input stands for no JavaScript value; `minProperties` and `maxProperties` would count the repeated key twice.
- **The validator** is pure. Every private method of `SchemaValidator` is a function over `(schema, value, schemaLocation, valuePath)`, and the `reduce` loops are recursive folds with an index.
- **Regular expressions** are a parameter. `Matcher` is the predicate `text.match(pattern)` is truthy. It decides both `pattern` and which keys `patternProperties` claims.
- **Reasons** are a datatype. `Render` turns one into the exact string the source writes. The texts the source leaves to the JavaScript runtime (`${number}`, `String(value)`, `JSON.stringify`) come from a `Printer` parameter.
- **`Schemas`** is a class with a `location` constant and a `schemas: map<string, Schema>` field that `Add` updates in place.

## Behaviours of the code the model reproduces

- **Extra keys.** The object validator treats as "extra" every defined key that is not in the object after the `properties` and `patternProperties` merges (src/schema-validator.ts:142-143). So a declared property that was kept is not extra either, not just a key some pattern keeps.
- **`propertyNames` path.** A violation from `propertyNames` is reported at `<valuePath>/<key>`, not at the object's own path (src/schema-validator.ts:149).
- **`const`/`enum` reported twice.** For an object value, the `required` list and the merged list both start from the violations collected before them (src/schema-validator.ts:130 and 140). So a `const` or `enum` violation is reported twice in the object's result (src/schema-validator.ts:145, `ObjectConstViolationReportedTwice`). A value that is not a plain object never reaches the merges (src/schema-validator.ts:174), so its type violation appears once.
- **Dropped properties.** A declared property whose validation fails and whose value is falsy but defined (`0`, `""`, `false`, `null`) is dropped from the merge (src/schema-validator.ts:93). It is then counted as an additional property (`InvalidFalsyPropertyIsAdditional`).
- **Only the last match of a pattern counts.** The inner `reduce` at src/schema-validator.ts:118-120 names its accumulator `prev2` but builds every step from the outer `prev`.
  - So for each pattern, only the last key of the value it matches keeps its result and its violations (`PatternKeysPartKeepsLastMatch`).
  - An earlier matching key is not added by that pattern, and is then extra when it is defined (`UnclaimedKeyIsExtra`).
  - Example: against `{type: 'object', patternProperties: {'^x': {type: 'string'}}, additionalProperties: false}`, the value `{x1: 'a', x2: 'b'}` is invalid and `x1` is named as an additional property (`EarlierPatternMatchIsAdditional`).

## Model

| member | source | states |
|---|---|---|
| `Json.Find` | src/schema-validator.ts:91 | a key is found exactly when it is one of the object's keys |
| `Json.Put` | src/schema-validator.ts:94 | `{...o, [k]: v}` maps `k` to `v`, leaves every other key's value alone, adds only `k` to the key set and never duplicates a key |
| `Json.Merge` | src/schema-validator.ts:102 | `{...a, ...b}`: every key of either object is present and none is repeated; when `b` repeats no key, a key of `b` takes `b`'s value and any other key keeps `a`'s |
| `SchemaValidator.ValidateType` | src/schema-validator.ts:35-52 | no reason exactly when the value has the type (never for `integer`, which `typeof` does not produce); otherwise the reason names the expected type and the value's actual `typeof`, with `null` and `array` told apart |
| `SchemaValidator.Locate` | src/schema-validator.ts:214 | each reason becomes one violation, in order, carrying the value, the schema, the location and the path |
| `SchemaValidator.CommonReasonsAreFailingChecks` | src/schema-validator.ts:74-82 | the type, `const` and `enum` reasons an object or array collects are exactly the failing ones of those three checks |
| `SchemaValidator.ValidateString` | src/schema-validator.ts:191-215 | the verdict is the failing reasons among type, `const`, `enum`, `minLength`, `maxLength` and `pattern`, in that order; a valid result is the value itself; an invalid one is non-empty and located at the given location and path |
| `SchemaValidator.StringReasonsAreFailingChecks` | src/schema-validator.ts:194-213 | the string reasons, in the order they are pushed, are exactly the failing ones among type, `const`, `enum`, `minLength`, `maxLength` and `pattern` |
| `SchemaValidator.ValidateNumber` | src/schema-validator.ts:228-258 | the same for type, `const`, `enum`, the four bounds and a non-zero `multipleOf` |
| `SchemaValidator.NumberReasonsAreFailingChecks` | src/schema-validator.ts:231-257 | the number reasons, in the order they are pushed, are exactly the failing ones among type, `const`, `enum`, the four bounds and `multipleOf` |
| `SchemaValidator.ValidateInteger` | src/schema-validator.ts:217-226 | a number with a fractional part gets "should have been an integer" in front of whatever the number checks found; anything else is judged as a number |
| `SchemaValidator.ValidateNull` | src/schema-validator.ts:260-265 | valid (returning the value) exactly for `null`, otherwise the single type violation |
| `SchemaValidator.ValidateBoolean` | src/schema-validator.ts:267-273 | valid (returning the value) exactly for a boolean, otherwise the single type violation |
| `SchemaValidator.ValidateAgainstAnyOf` | src/schema-validator.ts:30-33 | a union `type` is always invalid, with no violation listed |
| `SchemaValidator.Validate` | src/schema-validator.ts:275-305 | every violation lies under the given schema location and value path; the result is invalid with an empty list exactly for a defined value against a union `type`; a valid result of a typed schema has the type's shape |
| `SchemaValidator.ValidateTyped` | src/schema-validator.ts:285-299 | the dispatch on `type` keeps the violation locations under the schema's own and an invalid result non-empty (which validator each name selects: `SingleTypeDispatch`) |
| `SchemaValidator.TupleFold` | src/schema-validator.ts:58-61 | one rebuilt element per tuple position, each the resolved result of that position's schema; the violations extend what came before and lie under `<loc>/items/` and `<path>/` |
| `SchemaValidator.TupleFoldViolations` | src/schema-validator.ts:58-61 | the tuple fold appends exactly the violations of each position, in position order |
| `SchemaValidator.ListFold` | src/schema-validator.ts:65-68 | one rebuilt element per array element, each the resolved result of the `items` schema; the violations extend what came before and lie under `<loc>/items` and `<path>/` |
| `SchemaValidator.ListFoldViolations` | src/schema-validator.ts:65-68 | the list fold appends exactly the violations of each element, in element order |
| `SchemaValidator.ValidateArraySchema` | src/schema-validator.ts:54-71 | without `items` the array passes through; list mode rebuilds every element; a long enough tuple rebuilds its positions; a short tuple empties the array and adds one tuple-length violation giving both lengths |
| `SchemaValidator.ArraySchemaViolations` | src/schema-validator.ts:54-71 | `items` appends exactly: nothing without `items` or for a non-array; every element's violations in list mode; every position's for a long enough tuple; one tuple-length violation for a short one |
| `SchemaValidator.ValidateArray` | src/schema-validator.ts:73-86 | a valid result is an array, the value itself when there is no `items`, with elements resolved per mode; a short tuple yields exactly the common violations followed by the tuple-length one |
| `SchemaValidator.ArrayViolations` | src/schema-validator.ts:73-86 | an array's violations are its type, `const` and `enum` ones followed by exactly what `items` appends |
| `SchemaValidator.Excluding` | src/schema-validator.ts:129 | the names of the first list that are not in the second |
| `SchemaValidator.ExcludingConcat` | src/schema-validator.ts:129 | filtering keeps order: filtering a concatenation concatenates the filtered parts, and a single name is kept exactly when it is not excluded |
| `SchemaValidator.DefinedAmong` | src/schema-validator.ts:128 | the keys whose value is not `undefined` |
| `SchemaValidator.DefinedAmongConcat` | src/schema-validator.ts:128 | the defined keys keep the order of the keys: the same concatenation law, a single key kept exactly when defined |
| `SchemaValidator.Pick` | src/schema-validator.ts:101 | an object with exactly the chosen keys, each holding the value's own entry, no key twice |
| `SchemaValidator.PropertiesPart` | src/schema-validator.ts:88-96 | a key that no kept declared property names keeps its value; a kept declared property holds its child's resolved result; violations lie under `<loc>/properties/`; no key is duplicated |
| `SchemaValidator.PropertiesPartViolations` | src/schema-validator.ts:88-96 | `properties` appends exactly the violations of each kept declared property, in declaration order; a dropped one reports nothing |
| `SchemaValidator.LastMatch` | src/schema-validator.ts:118 | the key the inner `reduce` ends on: `None` exactly when the pattern matches no key; otherwise a key the pattern matches, with no matching key after it |
| `SchemaValidator.PatternKeysPart` | src/schema-validator.ts:118-121 | the inner `reduce` returns its seed, or the outer accumulator extended with one key: violations only appended, under `<loc>/patternProperties/`; keys kept and kept distinct; keys the pattern does not match unchanged |
| `SchemaValidator.PatternKeysPartKeepsLastMatch` | src/schema-validator.ts:118-121 | each step builds on the outer `prev`, so the `reduce` yields the outer accumulator with only the last matching key's result put in and its violations appended, or its seed when no key matches |
| `SchemaValidator.PatternPropertiesPart` | src/schema-validator.ts:113-122 | a key that no remaining pattern matches keeps its value; violations lie under `<loc>/patternProperties/` |
| `SchemaValidator.PatternPropertiesPartViolations` | src/schema-validator.ts:113-122 | the patterns append, pattern by pattern, exactly the violations of the key each keeps |
| `SchemaValidator.PatternPropertiesPartFields` | src/schema-validator.ts:113-122 | a key holds the result of the last pattern that keeps it; a key no pattern keeps, even one some pattern matches, is as it was |
| `SchemaValidator.MergedProperties` | src/schema-validator.ts:140-141 | the merges only add violations, located under the object's location and path, and keep keys distinct |
| `SchemaValidator.MergedViolations` | src/schema-validator.ts:140-141 | the merges append the kept properties' violations, then those of the key each pattern keeps |
| `SchemaValidator.MergedFields` | src/schema-validator.ts:140-141 | after the merges, a key some pattern keeps holds the last such pattern's result; otherwise a kept declared property holds its own result; any other key is as it was |
| `SchemaValidator.AdditionalFold` | src/schema-validator.ts:104-110 | each extra key is merged with its `additionalProperties` result unless it failed with a falsy value; violations lie under `<loc>/additionalProperties` |
| `SchemaValidator.AdditionalFoldViolations` | src/schema-validator.ts:104-110 | the fold over the extra keys reports exactly the kept keys' violations, in order; a key dropped for failing with a falsy value reports nothing |
| `SchemaValidator.AdditionalFoldFields` | src/schema-validator.ts:104-110 | each kept extra key holds its `additionalProperties` result; a dropped or other key keeps its value |
| `SchemaValidator.AdditionalPropertiesPart` | src/schema-validator.ts:98-111 | keys that are not extra are untouched; with `true` or no keyword every extra key passes through with its own value; with `false` exactly one violation lists all extra keys at `<loc>/additionalProperties` and the object's path |
| `SchemaValidator.AdditionalSchemaFacts` | src/schema-validator.ts:104-110 | against an `additionalProperties` schema, a kept extra key holds its result, a dropped one keeps its value, and exactly the kept keys' violations are appended |
| `SchemaValidator.PropertyNameViolations` | src/schema-validator.ts:146-153 | every key's failures as a string, located under `<loc>/propertyNames` and `<path>/` (their content: `PropertyNamesConcat`, `PropertyNameSingle`, `PropertyNamesIff`) |
| `SchemaValidator.MissingViolation` | src/schema-validator.ts:128-139 | one violation naming the missing `required` names exactly when some are missing, none otherwise |
| `SchemaValidator.NameViolations` | src/schema-validator.ts:146-153 | nothing without `propertyNames`; otherwise violations located under `<loc>/propertyNames` and `<path>/` |
| `SchemaValidator.CountViolations` | src/schema-validator.ts:154-171 | a too-few violation for `n` exactly when `minProperties` is a non-zero `n` above the own-key count, a too-many one exactly when `maxProperties` is an `n` below it; both at the object's location and path, too-few first |
| `SchemaValidator.ValidateObjectSchema` | src/schema-validator.ts:124-175 | a non-object comes back unchanged; for an object, the violations are the earlier ones, the missing-`required` one, those of the merges and `additionalProperties`, then `propertyNames`, then `minProperties`/`maxProperties`; the earlier ones are thus reported twice; the rebuilt object is the one after `additionalProperties` |
| `SchemaValidator.ValidateObject` | src/schema-validator.ts:177-189 | an invalid result is non-empty and located; a valid result is a plain object with no key twice |
| `SchemaValidatorProperties.NoReasonsIffNoCheckFails` | src/schema-validator.ts:214 | no reasons exactly when no check fails |
| `SchemaValidatorProperties.StringValidIff` | src/schema-validator.ts:191-215 | a string schema accepts exactly the strings meeting every keyword that is present |
| `SchemaValidatorProperties.NumberValidIff` | src/schema-validator.ts:228-258 | a number schema accepts exactly the numbers meeting every bound, `const`, `enum` and non-zero `multipleOf` |
| `SchemaValidatorProperties.IntegerValidIff` | src/schema-validator.ts:217-226 | an integer schema accepts exactly the integral numbers its number checks accept |
| `SchemaValidatorProperties.SingleTypeDispatch` | src/schema-validator.ts:289-297 | for a defined value, each single `type` name hands the whole result to its own validator |
| `SchemaValidatorProperties.StringTypedValidIff` | src/schema-validator.ts:285-290 | a defined value passes a `type: 'string'` schema exactly when it is a string meeting every string keyword present |
| `SchemaValidatorProperties.NumberTypedValidIff` | src/schema-validator.ts:285-292 | the same for `type: 'number'` and the number keywords |
| `SchemaValidatorProperties.IntegerTypedValidIff` | src/schema-validator.ts:285-293 | a defined value passes a `type: 'integer'` schema exactly when it is an integral number meeting every number keyword present |
| `SchemaValidatorProperties.PlainIntegerSchemaAcceptsExactlyIntegers` | src/schema-validator.ts:217-226 | `{type: 'integer'}` accepts exactly the defined integral numbers |
| `SchemaValidatorProperties.UndefinedTakesDefault` | src/schema-validator.ts:276-284 | `undefined` becomes the schema's default; without one it gets the single no-default violation; `true` lets it through and `false` rejects it with the false-schema violation |
| `SchemaValidatorProperties.UntypedSchemaAcceptsEverything` | src/schema-validator.ts:276-279 | `true` and a node without `type` return a defined value unchanged; `false` rejects it with one violation |
| `SchemaValidatorProperties.ObjectDispatch` | src/schema-validator.ts:177-188 | a defined value against an `object`-typed schema is judged by walking the object keywords from the type, `const` and `enum` violations; the result is invalid with exactly that walk's violations when it found any, otherwise the walked object |
| `SchemaValidatorProperties.ObjectResult` | src/schema-validator.ts:187-188 | a valid object result is the object after `additionalProperties`, and every violation found up to there is reported |
| `SchemaValidatorProperties.DeclaredPropertyHoldsChildResult` | src/schema-validator.ts:92-94 | a kept declared property that no pattern keeps holds its child's resolved result in a valid object |
| `SchemaValidatorProperties.AbsentPropertyTakesDefault` | src/schema-validator.ts:91-94 | a declared property missing from the value takes its schema's default |
| `SchemaValidatorProperties.PropertyViolationsInclude` | src/schema-validator.ts:88-96 | every violation of a kept declared property is among those `properties` reports |
| `SchemaValidatorProperties.MergedViolationReported` | src/schema-validator.ts:140-145 | every violation the `properties` and `patternProperties` merges report is reported by the object |
| `SchemaValidatorProperties.KeptPropertyViolationReported` | src/schema-validator.ts:91-94 | each violation of a kept declared property is reported by the object, at `<loc>/properties/<key>` and `<path>/<key>`; a kept property reporting one makes the object invalid |
| `SchemaValidatorProperties.UnionTypedPropertyBecomesUndefined` | src/schema-validator.ts:93-94 | a truthy property under a union-typed schema fails with no violation and is rebuilt as `undefined` |
| `SchemaValidatorProperties.TooManyPropertiesReported` | src/schema-validator.ts:163-171 | an object with more own keys than `maxProperties` (0 included) is invalid, and the excess is its last violation |
| `SchemaValidatorProperties.TooFewPropertiesReported` | src/schema-validator.ts:154-162 | an object with fewer own keys than a non-zero `minProperties` is invalid and reports the shortfall |
| `SchemaValidatorProperties.UnclaimedKeyIsExtra` | src/schema-validator.ts:142-143 | a key is extra exactly when it is defined, no kept declared property names it and no pattern keeps it (a pattern keeps only the last key it matches) |
| `SchemaValidatorProperties.KeptPropertyIsKey` | src/schema-validator.ts:88-96 | every kept declared property becomes a key of the object `properties` builds |
| `SchemaValidatorProperties.LastPickExists` | src/schema-validator.ts:115-121 | a key some pattern keeps has a last pattern keeping it |
| `SchemaValidatorProperties.UnclaimedKeyPassesThrough` | src/schema-validator.ts:102 | with `additionalProperties` `true` or absent, such a key keeps its own value in a valid object |
| `SchemaValidatorProperties.UnclaimedKeyIsRejected` | src/schema-validator.ts:103 | with `additionalProperties: false`, such a key is named in an additional-properties violation at `<loc>/additionalProperties` and the object's path |
| `SchemaValidatorProperties.PlainObjectSchema` | src/schema-validator.ts:130-172 | with nothing missing and no `propertyNames`, `minProperties` or `maxProperties`, the object's violations are the earlier ones followed by the merges' |
| `SchemaValidatorProperties.ExtraKeysAreTheOnlyViolation` | src/schema-validator.ts:103 | an object whose only fault is extra keys gets exactly one violation naming them all |
| `SchemaValidatorProperties.UndeclaredKeyIsAdditional` | src/schema-validator.ts:142-144 | an undeclared defined key that no pattern keeps passes through with `true` or no keyword and makes the object invalid with `false` |
| `SchemaValidatorProperties.EarlierPatternMatchIsAdditional` | src/schema-validator.ts:118-120 | of two keys `x1`, `x2` that `^x` matches under `additionalProperties: false`, the earlier one is reported as an additional property |
| `SchemaValidatorProperties.InvalidFalsyPropertyIsAdditional` | src/schema-validator.ts:93 | a declared property that fails with a falsy, defined value is dropped and then handled as an additional property |
| `SchemaValidatorProperties.RequiredPropertyMissing` | src/schema-validator.ts:126-139 | a required key with no defined value is named among the missing ones and makes the object invalid |
| `SchemaValidatorProperties.ObjectConstViolationReportedTwice` | src/schema-validator.ts:130-145 | an object failing its `const` lists that violation at least twice |
| `SchemaValidatorProperties.PropertyNamesIff` | src/schema-validator.ts:146-153 | no `propertyNames` violations exactly when every key is valid as a string |
| `SchemaValidatorProperties.PropertyNamesConcat` | src/schema-validator.ts:148-152 | keys are checked one after another: the violations for `a + b` are those for `a` then those for `b` |
| `SchemaValidatorProperties.PropertyNameSingle` | src/schema-validator.ts:148-152 | one key contributes exactly its own string validation's violations, at `<loc>/propertyNames` and `<path>/<key>` |
| `SchemaValidatorProperties.BooleanPropertyNamesAcceptEveryKey` | src/schema-validator.ts:146-153 | a boolean `propertyNames` schema never reports a key |
| `SchemaValidatorProperties.ListViolationsEmptyIff` | src/schema-validator.ts:65-68 | no element violation is reported exactly when no element has one |
| `SchemaValidatorProperties.ListViolationsNoneFail` | src/schema-validator.ts:65-68 | when no element has a violation, none is reported |
| `SchemaValidatorProperties.ListViolationsInclude` | src/schema-validator.ts:65-68 | every violation of an element is reported |
| `SchemaValidatorProperties.TupleViolationsEmptyIff` | src/schema-validator.ts:58-61 | no position violation is reported exactly when no position has one |
| `SchemaValidatorProperties.TupleViolationsNoneFail` | src/schema-validator.ts:58-61 | when no position has a violation, none is reported |
| `SchemaValidatorProperties.TupleViolationsInclude` | src/schema-validator.ts:58-61 | every violation of a position is reported |
| `SchemaValidatorProperties.NoViolationsMeansValidOrUnion` | src/schema-validator.ts:30-33 | a result with no violations is valid or comes from a union `type` |
| `SchemaValidatorProperties.ListArrayValidIff` | src/schema-validator.ts:65-85 | in list mode an array is valid exactly when it has no type, `const` or `enum` violation and no element has a violation; then every element passed unless `items` has a union `type` |
| `SchemaValidatorProperties.ListElementViolationReported` | src/schema-validator.ts:65-68 | each violation of element `j` is among the array's, at `<loc>/items` and `<path>/<j>` |
| `SchemaValidatorProperties.TupleArrayValidIff` | src/schema-validator.ts:57-85 | a tuple at least as long as `items` is valid exactly when it has no type, `const` or `enum` violation and no position has a violation |
| `SchemaValidatorProperties.TupleElementViolationReported` | src/schema-validator.ts:58-61 | each violation of position `j` is among the array's, at `<loc>/items/<j>` and `<path>/<j>` |
| `SchemaValidatorProperties.TupleFoldIgnoresOtherKeywords` | src/schema-validator.ts:58-61 | the tuple fold reads only `items` |
| `SchemaValidatorProperties.ListFoldIgnoresOtherKeywords` | src/schema-validator.ts:65-68 | the list fold reads only `items` |
| `SchemaValidatorProperties.ArrayKeywordsNotEnforced` | src/schema-validator.ts:54-71 | `minItems`, `maxItems`, `uniqueItems` and `additionalItems` change neither the verdict nor the rebuilt array |
| `ReasonTexts.NatToStringRoundTrip` | src/schema-validator.ts:203 | a whole number prints as plain decimal digits with no leading zero and reads back as itself |
| `ReasonTexts.NatToStringInjective` | src/schema-validator.ts:63 | different lengths print differently |
| `ReasonTexts.MissingRequiredText` | src/schema-validator.ts:137 | the missing names are joined with a comma and a space |
| `ReasonTexts.AdditionalPropertiesText` | src/schema-validator.ts:103 | the extra names print as an array does, comma separated with no space |
| `ReasonTexts.WrongTypeText` | src/schema-validator.ts:39 | the type reason names the expected and the actual type |
| `ReasonTexts.WrongTypeArrayText` | src/schema-validator.ts:39 | an array where an object is expected is reported as of type array |
| `ReasonTexts.LengthBoundText` | src/schema-validator.ts:63 | length bounds and tuple lengths print as decimal numbers |
| `ReasonTexts.QuotedEnumText` | src/schema-validator.ts:199 | a string `enum` quotes each option and separates them with a comma and a space |
| `JsonSchema.OverlayLaws` | src/json-schema.ts:56 | keyword spreading has `{}` as identity on both sides, is idempotent and associative |
| `JsonSchema.Typed` | src/json-schema.ts:55-57 | `{type: t, ...props}` is a node of type `t` unless the props set a type, and every other keyword is the props' own |
| `JsonSchema.RefSchema` | src/json-schema.ts:47-49 | `S.$ref(r)` is a node holding `$ref: r` and nothing else |
| `JsonSchema.ObjectSchema` | src/json-schema.ts:107-118 | `S.object`: no props gives `{type: 'object'}`; otherwise a truthy title, `required` listing the required names in order, `properties` being the required then the optional ones with an optional one winning, every other keyword of the props copied (a keyword the props set winning over these), and `additionalProperties` false unless set |
| `JsonSchema.Builder.Ref` | src/json-schema.ts:43-45 | a reference to `<location>/<name>` |
| `JsonSchema.Builder.Object` | src/json-schema.ts:103-105 | the title defaults to the definition's name, and the result always sets `additionalProperties` |
| `JsonSchema.Builder.ArrayOf` | src/json-schema.ts:91-93 | type `array` unless the props set `type`; `items` refers to the named definition unless the props set `items`; every other keyword is the props' |
| `JsonSchema.Schemas.Create` | src/json-schema.ts:23-25 | an empty registry at the given location, `#/definitions` by default |
| `JsonSchema.Schemas.Add` | src/json-schema.ts:9-16 | stores the literal schema, or the callback's result for a builder at this location named after the entry; every other entry is unchanged and the registry itself is returned |
| `JsonSchema.Schemas.Ref` | src/json-schema.ts:18-20 | the location, a slash, then the name, which can be read back |
| `JsonSchema.Schemas.RefInjective` | src/json-schema.ts:18-20 | different names give different references |
| `JsonSchema.Schemas.BuilderRefersIntoRegistry` | src/json-schema.ts:11 | the builder a callback receives refers to the same places as the registry's `ref` |
| `BuilderValidation.PlainBuildersAcceptTheirType` | src/json-schema.ts:55-89 | `S.string()`, `S.number()`, `S.integer()`, `S.boolean()` and `S.null()` accept exactly the defined values of their type |
| `BuilderValidation.BuiltObjectRejectsUndeclaredKeys` | src/json-schema.ts:116 | an object from `S.object` rejects a defined key it does not declare |
| `BuilderValidation.BuiltObjectRequiresItsRequiredProperties` | src/json-schema.ts:113 | an object from `S.object` rejects a value missing one of its required properties |
| `BuilderValidation.RequiredPropertiesAreReportedTogether` | test/schema-validator.spec.ts:183-187 | `{}` against `required: {a, b}` is invalid, and its first violation names `a` and `b` at the root |
| `BuilderValidation.AdditionalPropertyIsTheOnlyViolation` | test/schema-validator.spec.ts:189-193 | `{a: 'abc', b: 5, c: true}` against `required: {a, b}` has exactly one violation, naming `c`, at `#/additionalProperties` and `#` |

## Left out

- Regular expressions: `pattern` and `patternProperties` go through the `Matcher` parameter. JavaScript regex semantics are not modelled.
- Number formatting and `JSON.stringify`: the texts the runtime produces come from the `Printer` parameter. Only whole-number lengths and counts are printed by the model itself.
- IEEE-754 doubles: numbers are exact reals. `NaN`, infinities, `-0` and rounding in `%` (`multipleOf`) are not modelled.
- Reference identity: `value !== schema.const` and `enum.includes` compare objects and arrays by identity in JavaScript. The model compares them structurally.
- `typeof` results `function`, `bigint` and `symbol`: the value model has no such values.
- Prototype chain and JavaScript key order: objects keep insertion order. Integer-like keys are not moved to the front.
- String length: it counts characters, not UTF-16 code units.
- `SchemaValidator.ValidateArraySchema`: for a value that is not an array, the model skips `items`. The result is invalid either way, through the type violation, but the source does more. In tuple mode it reads `value.length`: a number, boolean or object has none, so it adds "Should have tuple length N but was undefined"; a string shorter than the tuple gets the tuple-length violation; a longer one is walked per character; `null` throws. In list mode it calls `value.reduce`, which throws a TypeError for every non-array. The model drops that extra tuple-length violation and the per-character walk, and has no exceptions.
- `SchemaValidator.TupleFold`: its own contract states only locations, frames and distinct keys (it is mutually recursive with `Validate`, where every added clause weighs on each proof of the group); which violations it reports: `TupleFoldViolations`.
- `SchemaValidator.ListFold`: its own contract states only locations, frames and distinct keys (it is mutually recursive with `Validate`, where every added clause weighs on each proof of the group); which violations it reports: `ListFoldViolations`.
- `SchemaValidator.PropertiesPart`: its own contract states only locations, frames and distinct keys (it is mutually recursive with `Validate`, where every added clause weighs on each proof of the group); which violations it reports: `PropertiesPartViolations`.
- `SchemaValidator.PatternKeysPart`: its own contract states only locations, frames and distinct keys (it is mutually recursive with `Validate`, where every added clause weighs on each proof of the group); its exact result, the last matching key only: `PatternKeysPartKeepsLastMatch`.
- `SchemaValidator.PatternPropertiesPart`: its own contract states only locations, frames and distinct keys (it is mutually recursive with `Validate`, where every added clause weighs on each proof of the group); which violations it reports: `PatternPropertiesPartViolations`; what a kept key holds: `PatternPropertiesPartFields`.
- `SchemaValidator.MergedProperties`: its own contract states only locations, frames and distinct keys (it is mutually recursive with `Validate`, where every added clause weighs on each proof of the group); which violations it reports: `MergedViolations`; what each key holds: `MergedFields`.
- `SchemaValidator.AdditionalFold`: its own contract states only locations, frames and distinct keys (it is mutually recursive with `Validate`, where every added clause weighs on each proof of the group); which violations it reports: `AdditionalFoldViolations`; what a kept key holds: `AdditionalFoldFields`.
- `SchemaValidator.AdditionalPropertiesPart`: its own contract states only locations, frames and distinct keys (it is mutually recursive with `Validate`, where every added clause weighs on each proof of the group); with a schema, what an extra key holds and which violations it reports: `AdditionalSchemaFacts`.
- `SchemaValidator.ValidateTyped`: its own contract does not say which validator each `type` name selects, for the same reason; `SingleTypeDispatch` states it for `Validate`.
- `JsonSchema.Overlay`: a keyword that the props set explicitly to `undefined` is treated as absent, so the base's value stays. In JavaScript the spread writes `undefined` over it. `Keywords` has no "present but `undefined`" state for the optional keywords.
- `JsonSchema.Builder.ArrayOf`: for the same reason, `arrayOf(r, {items: undefined})` keeps `items` referring to `r` in the model. The source builds an array schema without `items`, whose elements are then not checked.
- `S.schema` and the generated `JSONSchema7` types and builder (`generated/`): these are outside the modelled files, along with the TypeScript type-level machinery (generic key parameters).
- Annotation keywords (`description`, `format`, `readOnly`, `writeOnly`, `examples`): the validator never reads them.
- The instance methods `string`, `number`, `integer`, `boolean`, `null` and `array` of `S` delegate unchanged to the static ones, so they are not modelled separately.
- `SchemaValidator.ValidateAgainstAnyOf`: the source's `validateAgainstAnyOf` ignores its arguments. The model keeps that unfinished behaviour.
- `JsonSchema.StringSchema` and the other one-line builders carry no contract of their own. What they promise is stated by `JsonSchema.Typed` and `BuilderValidation.PlainBuildersAcceptTheirType`.
