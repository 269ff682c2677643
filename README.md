# env_vars: typed configuration from environment variables

`env_vars` turns a flat map of string variables into a configuration object.
Inside `env(setup, vars)` the setup callback declares each variable:

- `mandatory`: the variable must be present when it is declared.
- `optional`: the variable has a default.
- `property`: a computed value.

Each declaration installs a lazy accessor under a camel-cased name derived
from the variable name ("APP_NAME" gives `appName`) and under any aliases.
On every read the accessor coerces the variable's current text with the
declared type (string, int, float, bool or array), or returns the default
when the variable is absent.

utils.js holds a second copy of the helpers. Its descriptors are tag lists
from types.js and its accessors are configurable. testing.js builds on it:
`stub` overrides an accessor, and `restore` undoes every stub, newest first.

The model has these modules:

- `Text`: ASCII case mapping, `split` on one character, the `/, */` split and `join`.
- `NumberParsing`: `parseInt` per section 19.2.5 of ECMA-262 (2022), and the NaN test of `parseFloat`.
- `IndexCoercion`: index.js's `coerce` over string or array descriptors.
- `UtilsCoercion` and `Types`: utils.js's `coerce` and its helpers over tag lists, and the types.js constructors.
- `Naming`: `getAttrName`.
- `Configuration`: the configuration object. It is a class whose `slots` map each property name to a descriptor. A descriptor holds one getter variant (a declared variable, a computed property or a stub constant) and a configurable flag. `Object.defineProperty` is modelled as `Define`.
- `Registry`: `validate` and `set`, shared by both files. The `set` method runs a loop of property definitions and is proved against the specification `SetSpec`.
- `IndexApi` and `UtilsApi`: the `mandatory`, `optional` and `property` wrappers of each file, and index.js's `env`.
- `Override`: testing.js. The module-level `restores` array is a class holding a stack of restore actions. `restore()` is a loop proved against the specification `Unwind`.

The source object of the variables is a `map<string, string>` parameter
(process.env is not modelled). The acronym list is a `seq<string>`
parameter, because the `acronyms` module is not part of this model. A user
function given to `property` is an index, and every read takes an `invoke`
parameter that says what those functions return at that moment.

Where index.js and utils.js differ, the model follows each file's own code:

- Coercion: index.js uses `type[1]` of any array descriptor; utils.js uses the second tag of a flat list.
- Collisions: index.js defines non-configurable accessors, so a second definition of a name throws "Cannot redefine property". It does not silently replace the first one. utils.js's configurable accessors are replaced (last wins).
- The order of checks: index.js derives the accessor name before validating (index.js:23 before index.js:25). A name whose derivation throws therefore throws that error even when the variable is missing.

## Model

| member | source | states |
|---|---|---|
| Text.Split | index.js:88 | `split("_")` yields one piece more than there are separators, no piece contains the separator, and joining the pieces with it gives the input back |
| Text.SplitItems | index.js:44 | the `/, */` split yields one piece more than there are commas, and no piece contains a comma |
| Text.SplitItemsOfListing | index.js:44 | pieces written with a comma and any number of spaces of their own between neighbours ("a, b,c") split back into exactly those pieces, when none contains a comma and none after the first starts with a space |
| Text.SplitItemsOfJoin | index.js:44 | the same round trip when every comma is followed by the same number of spaces ("a, b, c") |
| Text.ConcatSplit | index.js:88-101 | joining the pieces of a split with "" is the input with every separator removed |
| Text.LowerForgetsCase | index.js:91-92 | lower-casing after either case mapping gives the same text, and so does upper-casing |
| NumberParsing.ParseInt | index.js:48 | no contract of its own; `parseInt(value, 10)` as ECMA-262 section 19.2.5 defines it, stated by ParseIntNaNIff, ParseIntOfText and ParseIntSkipsWhiteSpace |
| NumberParsing.ParseFloatIsNaN | index.js:58-60 | no contract of its own; the NaN test of `parseFloat`, stated by ParseFloatAcceptsIntegers and ParseIntSkipsWhiteSpace |
| NumberParsing.ParseIntOfText | index.js:48 | `parseInt` reads back every integer's decimal text, whatever non-digit text follows it |
| NumberParsing.ParseIntSkipsWhiteSpace | index.js:48 | `parseInt` and the `parseFloat` NaN test ignore leading JavaScript white space |
| NumberParsing.ParseIntNaNIff | index.js:48-50 | `parseInt` is NaN exactly when no digit follows the white space and the optional sign |
| NumberParsing.ParseFloatAcceptsIntegers | index.js:58-60 | every text `parseInt` accepts is also accepted by `parseFloat` |
| IndexCoercion.Coerce | index.js:42-72 | the only errors coercion throws are `invalid value for integer` and `invalid value for float`; branch by branch it is stated by CoerceArray, CoerceInt, CoerceFloat, CoerceBool and CoerceIdentity |
| IndexCoercion.CoerceEach | index.js:44 | the map over the pieces throws only a coercion error; CoerceEachSpec states the rest |
| IndexCoercion.ArrayType | index.js:6 | `array(type)` is an array descriptor whose element type is `type` |
| IndexCoercion.CoerceEachSpec | index.js:44 | mapping coercion over the pieces succeeds iff every piece coerces; on success it keeps their count and order, otherwise it fails with the first failing piece's error |
| IndexCoercion.CoerceArray | index.js:43-45 | array coercion yields one element per piece, one more than the commas, each coerced with the element type, or else fails with the error of some piece |
| IndexCoercion.CoerceEmptyArray | index.js:43-45 | "" is one empty piece, so it coerces to a one-element array, not an empty one |
| IndexCoercion.CoerceArrayExamples | index.js:43-45 | "a, b, c" and "a,b,c" both coerce to ["a", "b", "c"] |
| IndexCoercion.CoerceInt | index.js:47-55 | int coercion throws `invalid value for integer: "<raw>"` iff no digit leads, and otherwise gives the integer `parseInt` reads |
| IndexCoercion.CoerceIntRoundTrip | index.js:47-55 | int coercion reads back every integer's decimal text |
| IndexCoercion.CoerceFloat | index.js:57-65 | float coercion throws `invalid value for float` iff `parseFloat` yields NaN; otherwise it gives the number read from the raw text |
| IndexCoercion.CoerceBool | index.js:8 | bool coercion never throws; it is true exactly for "yes", "true" and "1", and "no", "false", "0" and "" give false |
| IndexCoercion.CoerceIdentity | index.js:71 | the string type, and any descriptor that is not an array or a known tag, return the raw text unchanged |
| IndexCoercion.CoerceIntListRoundTrip | index.js:43-55 | a list of integers written with commas, each followed by any number of spaces ("1, 2,3"), coerces back to those integers, in order |
| UtilsCoercion.Coerce | utils.js:53-67 | the only errors coercion throws are the integer and float errors; AgreesWithIndex, OnlyTwoTagsRead and UnknownHeadIsString state its results |
| UtilsCoercion.ToArray | utils.js:21-23 | `toArray` gives an array, or throws a coercion error of one of its pieces; CoerceEachNested and NestedArrayYieldsStrings state its elements |
| UtilsCoercion.CoerceEach | utils.js:22 | the map over the pieces throws only a coercion error; CoerceEachAgrees ties it to index.js's map |
| UtilsCoercion.ToString | utils.js:25-27 | no contract of its own; UnknownHeadIsString states that it returns the raw text |
| UtilsCoercion.ToInt | utils.js:29-37 | no contract of its own; stated by ToIntSpec |
| UtilsCoercion.ToFloat | utils.js:39-47 | no contract of its own; AgreesWithIndex with CoerceFloat state that it throws exactly when `parseFloat` is NaN |
| UtilsCoercion.ToBool | utils.js:49-51 | no contract of its own; stated by ToBoolSpec |
| UtilsCoercion.OneTag | utils.js:22 | the descriptor `[subtype]` has the subtype as its head, or no head when the subtype is undefined |
| UtilsCoercion.OnlyTwoTagsRead | utils.js:54 | coercion reads only the first two tags of a descriptor |
| UtilsCoercion.UnknownHeadIsString | utils.js:64-65 | a head tag other than array, int, float and bool gives `String(value)` |
| UtilsCoercion.ToIntSpec | utils.js:29-37 | `toInt` throws `invalid value for integer` iff `parseInt` is NaN, and reads back every integer's decimal text |
| UtilsCoercion.ToBoolSpec | utils.js:49-51 | `toBool` is true iff the text is "yes", "true" or "1" |
| UtilsCoercion.CoerceEachAgrees | utils.js:21-23 | mapping a one-tag descriptor over pieces agrees with index.js's mapping for that tag |
| UtilsCoercion.AgreesWithIndex | utils.js:53-67 | for every scalar tag, and for an array of it, utils.js's coercion gives exactly index.js's result |
| UtilsCoercion.CoerceEachNested | utils.js:21-23 | mapping `["array"]` over comma-free pieces gives one single-string array per piece |
| UtilsCoercion.InnerArrayOfPiece | utils.js:21-23 | `coerce(["array"], piece)` of a comma-free piece is the one-string array of that piece |
| UtilsCoercion.NestedArrayYieldsStrings | utils.js:21-23 | `array(array(int))` drops the `int`: every element is an array of strings |
| Types.ArrayOf | types.js:6 | `array(t)` is "array" followed by the tags of `t`, unchanged |
| Types.ArrayOfStrings | types.js:6 | `array()` defaults its element to ["string"], giving ["array", "string"] |
| Types.NestedArrayIsFlat | types.js:6 | `array(array(int))` is the flat list ["array", "array", "int"] |
| Naming.GetAttrName | index.js:86-102 | no contract of its own; AttrNameFailsIff, AttrNameDropsUnderscores and AttrNameIgnoresCase state it, and the same function serves utils.js:81-97 |
| Naming.ConvertWord | index.js:90-100 | no contract of its own; stated by ConvertWordCase and ConvertWordsFailsIff |
| Naming.ConvertWords | index.js:90-101 | no contract of its own; stated by ConvertWordsFailsIff, ConvertWordsCase and ConvertWordsSameCase |
| Naming.ConvertWordsFailsIff | index.js:90-101 | converting the words throws iff some word after the first is empty and "" is not an acronym |
| Naming.AttrNameFailsIff | index.js:99 | `getAttrName` throws iff a word after the first is empty ("A__B", a trailing "_") and "" is not an acronym |
| Naming.ConvertWordCase | index.js:91-99 | a converted word differs from the word only in letter case |
| Naming.ConvertWordsCase | index.js:90-101 | the converted words differ from the joined words only in letter case |
| Naming.AttrNameDropsUnderscores | index.js:86-102 | the derived name is the variable name without its underscores, differing only in case, and its length is the name's length minus its underscores |
| Naming.SplitSameCase | index.js:88 | names that agree once lower-cased split into pieces that agree once lower-cased |
| Naming.ConvertWordsSameCase | index.js:90-101 | words that agree once lower-cased convert to the same result |
| Naming.AttrNameIgnoresCase | utils.js:81-97 | names that agree once lower-cased ("APP_NAME", "app_name") derive the same accessor name, or both throw |
| Naming.AttrNameExamples | index.js:86-102 | "APP_NAME" gives "appName" when neither word is an acronym |
| Naming.AttrNameOneWord | index.js:91-97 | a name without "_" is only lower-cased, or upper-cased when it is an acronym: "TZ" gives "tz" |
| Naming.AttrNameAcronymExamples | index.js:94-95 | with "RTSP" an acronym, "RTSP_SERVER" gives "RTSPServer": an acronym is upper-case even first |
| Naming.AttrNameMiddleAcronym | index.js:94-95 | "PREFIX_X_SUFFIX" gives "prefixXSuffix" for any acronym X |
| Naming.SplitOfJoin | utils.js:83 | splitting words that contain no "_", after joining them with "_", gives the words back |
| Configuration.Read | index.js:31-37 | reading an accessor throws only when it is a declared variable that is set and its text does not coerce; the read itself is stated by SetAccessorsAgree and RestoredAccessorIsLive |
| Configuration.Lookup | utils.js:11-17 | reading `config[name]` throws only through a declared variable's coercion; a name with no own property reads `undefined` |
| Configuration.Define | index.js:28-29 | defining a property succeeds iff it is absent or configurable; the error is "Cannot redefine property"; on success the name holds the new descriptor and every other property is unchanged |
| Configuration.Config.Descriptor | testing.js:5 | `getOwnPropertyDescriptor` gives a descriptor iff the property exists, and that descriptor is the property's |
| Configuration.Config.DefineProperty | utils.js:108-114 | the object's properties become `Define`'s result, or stay unchanged when it throws |
| Configuration.Config.constructor | index.js:11 | a new configuration object has no properties |
| Registry.Validate | index.js:74-84 | `validate` throws iff the variable is required and absent, and the error is "<name> is not defined" |
| Registry.DefineAll | index.js:27-39 | the `forEach` of `defineProperty` calls never removes a property and throws only "Cannot redefine property"; DefineAllSucceedsIff, DefineAllInstalls and DefineAllPartial state the rest |
| Registry.SetSpec | index.js:21-40 | `set` never removes a property, and when it throws anything other than "Cannot redefine property" (name derivation or validation) it has installed nothing |
| Registry.DefineAllSucceedsIff | index.js:27-39 | installing under all names succeeds iff each name is free or configurable and, for non-configurable accessors, no name repeats |
| Registry.DefineAllInstalls | utils.js:10-18 | after a successful install every listed name holds the new accessor, no other name is added, and every other property is unchanged |
| Registry.DefineAllPartial | index.js:27-39 | a failed install throws for the first name it cannot define, having installed exactly the names before it |
| Registry.Set | index.js:21-40 | the loop of `defineProperty` calls leaves exactly the properties and outcome of `SetSpec`: derive the name, validate, then install |
| Registry.Property | utils.js:107-115 | `property` defines one computed accessor, as `Define` says |
| Registry.MandatoryMissingInstallsNothing | index.js:25 | a missing mandatory variable throws "<name> is not defined" and installs nothing, unless the name derivation throws first |
| Registry.SetAccessorsAgree | index.js:23-38 | after `set`, every alias and the derived name read the same: the default when the variable is absent at read time, otherwise the coercion of its current text |
| Registry.SetConfigurableLastWins | utils.js:10-18 | over configurable properties `set` always succeeds once validated, keeps every property configurable, and the new accessor wins |
| Registry.SetNonConfigurableCollision | index.js:28-29 | a non-configurable `set` throws "Cannot redefine property" when a name is already a non-configurable accessor or repeats among the aliases and the derived name |
| IndexApi.Mandatory | index.js:104-106 | `$mandatory` is `set` with default null and required true |
| IndexApi.Optional | index.js:108-110 | `$optional` is `set` with required false and the given default, where an omitted or `undefined` default becomes null |
| Values.DefaultToNull | index.js:108 | a `= null` parameter is never `undefined`: it keeps any other argument, and an omitted or `undefined` one becomes null |
| IndexApi.OptionalWithoutDefaultReadsNull | index.js:108-110 | an optional variable declared without a default, or with `undefined`, reads null through every alias and its derived name while the variable is unset |
| IndexApi.Property | index.js:112-120 | `$property` defines one non-configurable computed accessor, or throws as `Define` says |
| IndexApi.Apply | index.js:12-14 | one helper call never removes a property; its effect is SetSpec's or Define's |
| IndexApi.Build | index.js:16 | the calls of `setup` never remove a property; BuildUniform states what they install |
| IndexApi.Declare | index.js:12-14 | each helper call handed to `setup` changes the object as `Apply` says |
| IndexApi.Setup | index.js:16 | the `setup` calls run in order and stop at the first that throws, as `Build` says |
| IndexApi.Env | index.js:10-19 | `env` returns a fresh object holding exactly what the `setup` calls installed |
| IndexApi.StubbableEnv | index.js:10-19 | `env` with configurable accessors, as `Build` with configurable true says |
| IndexApi.DefineAllUniform | index.js:27-39 | installing accessors of one configurability keeps every property at that configurability |
| IndexApi.BuildUniform | index.js:29 | every property of the object `env` returns is non-configurable, whatever `setup` does |
| IndexApi.DeclareTwiceFails | index.js:28-29 | declaring the same thing twice in one `env` throws "Cannot redefine property" the second time |
| IndexApi.OptionalNumberExample | index.js:108-110 | `optional("NUMBER", int, 1234)` installs exactly one accessor, `number`, reading NUMBER as an int with default 1234 |
| IndexApi.AttrNameNumber | index.js:86-102 | "NUMBER" gives "number" |
| UtilsApi.Mandatory | utils.js:99-101 | `mandatory` is a configurable `set` with default null and required true |
| UtilsApi.Optional | utils.js:103-105 | `optional` is a configurable `set` with required false and the given default, where an omitted or `undefined` default becomes null |
| UtilsApi.Property | utils.js:107-115 | `property` succeeds exactly when `name` is free or configurable. On success it installs one configurable computed accessor through `Define`, leaving every other property alone. On failure it throws "Cannot redefine property" and changes nothing. On an object whose properties are all configurable it always succeeds and replaces just that name |
| Override.StubSlots | testing.js:4-11 | `stub` of a missing name throws "You can't stub a configuration that's not defined"; over a non-configurable accessor it throws "Cannot redefine property"; otherwise only that name changes, to a configurable constant |
| Override.StubAll | testing.js:4-13 | a run of stubs keeps the set of objects, only pushes onto the restore stack, and pushes exactly one action per stub when none throws |
| Override.Unwind | testing.js:15-21 | `restore()` keeps the set of objects and either empties the stack or stops at a redefinition that throws "Cannot redefine property", with the actions it did not reach still stacked in order |
| Override.Restores.constructor | testing.js:2 | the restore stack starts empty |
| Override.Restores.Stub | testing.js:4-13 | a successful stub changes the object as `StubSlots` says and pushes one action capturing the previous descriptor; a failed stub pushes nothing and changes nothing |
| Override.Restores.Restore | testing.js:15-21 | the pop-and-run loop leaves the stack, the outcome and every affected object as `Unwind` says |
| Override.Restores.PopAndRun | testing.js:18-19 | one pop-and-run step pops the newest action and agrees with one step of `Unwind` |
| Override.UnwindPop | testing.js:18-19 | `Unwind` redefines the newest action's property first |
| Override.RestoreUndoesStub | testing.js:11-12 | restoring right after a successful stub gives back the store and stack from before it |
| Override.StubsThenRestore | testing.js:4-21 | after any run of stubs, `restore()` undoes every stub that succeeded, even when a later one threw, and then unwinds what was stacked before |
| Override.RestoreReturnsOriginal | testing.js:15-21 | starting from an empty stack, stubs then one `restore()` give back every object exactly and leave the stack empty |
| Override.StubReads | testing.js:11 | while stubbed, the name reads the stub's value and every other name reads as before |
| Override.NestedStubs | testing.js:4-21 | after two stubs of one name it reads the second value, and one `restore()` brings back the original accessor |
| Override.StubAllStep | testing.js:11-12 | a successful stub in a run moves on with the stubbed object and one more action on the stack |
| Override.RestoredAccessorIsLive | testing.js:12 | a restored variable accessor reads the variable's text at the time of the read |
| Override.RestoredPropertyIsLive | testing.js:12 | a restored computed property calls its function again on every read |
| Override.StubOnIndexEnvFails | testing.js:11 | no property of an object built by index.js's `env` can be stubbed: "Cannot redefine property" for a declared name, "not defined" otherwise |
| Override.StubOptionalNumberAsWritten | testing.js:11 | `stub(config, "number", 4321)` on `env(optional("NUMBER", int, 1234))` throws "Cannot redefine property: number" |
| Override.StubbableEnvRoundTrip | testing.js:4-21 | on an object with configurable accessors, a stub succeeds iff the name is defined, the name then reads the value, and `restore()` gives back the object exactly |
| Override.StubOptionalNumberCorrected | testing.js:4-21 | with configurable accessors, `number` reads 4321 while stubbed and the default 1234 after `restore()` |

## Left out

- process.env, the default source of `env` (index.js:10): the variables are a `map<string, string>` parameter, read at declaration time by `validate` and at read time by the accessors.
- The numeric value of `parseFloat`: a successful float coercion yields `Floating(raw)`, the number `parseFloat` reads from that text, without computing it. Only the NaN test is modelled exactly.
- `parseInt` on more than 2^53 or on "-0": the model keeps the exact integer. JavaScript would round to a double or give -0.
- Unicode case mapping: `toLowerCase` and `toUpperCase` are modelled on ASCII letters only.
- Non-string raw values, such as a number placed in the variables object: raws are strings. UtilsCoercion.ToBoolSpec and IndexCoercion.CoerceBool therefore never meet the boolean `true` of the truthy list (index.js:8, utils.js:2).
- The `acronyms` module (index.js:87, utils.js:82) is not part of this model; the acronym list is a parameter.
- The functions given to `property` are opaque: each is an index, and what it returns on a read is supplied by the caller. A function that throws is not modelled.
- The `setup` callback is modelled as the list of helper calls it makes. A callback that catches an exception and carries on is not modelled.
- The `enumerable` flag is always true in the source and is not modelled.
- `Object.defineProperty` accepts an identical redefinition of a non-configurable property. Every call in the source passes a fresh `get` function. A restore action is pushed only after the stub has succeeded, and that stub made the property configurable. So such a redefinition never arises, and `Define` rejects every redefinition of a non-configurable property.
- utils.js's `coerce` assigns an undeclared `subtype`, which in sloppy mode is a global. `toArray` receives its value before any nested call, so the model treats it as a local.
- Registry.Validate and Configuration.Read test `name in vars` as membership of the map's own keys. In JavaScript `in` also follows the prototype chain, so with `vars = {}` a mandatory "constructor" passes validation and its accessor reads `Object`. The model throws `NotDefined("constructor")` and reads the default instead. Inherited names are not modelled.
- Configuration.Lookup reads only the own properties of the configuration object. The source's object is a plain `{}` (index.js:11), so `config.constructor`, `config.toString` and the other members inherited from `Object.prototype` read those members in JavaScript. The model reads `Undefined` for them.
- IndexApi.Declare and Registry.SetSpec always receive a list of aliases. In the source, an options object without an `aliases` field (`mandatory("X", string, {})`) makes `[...aliases, attrName]` (index.js:23, utils.js:6) throw a TypeError before validation. That failure path is not modelled.
- Exception message texts (index.js:51,61,83, utils.js:33,43,78, testing.js:8): the model keeps which error is thrown and the value it names (`Values.Error`), not the text of its message.
- The read-only and unknown-key guard exercised by test/index_test.js:201-218 is not in the `env` of index.js, which returns the plain object. It is not modelled.

## Findings

| source | as written | input that shows it | evidently intended | confidence | as-written member | corrected member |
|---|---|---|---|---|---|---|
| index.js:29 | `env` defines every accessor with `configurable: false`. testing.js's `stub` redefines the property through utils.js's `property`, and redefining a non-configurable property throws a TypeError, so no object built by `env` can be stubbed | `stub(env(({optional}) => optional("NUMBER", int, 1234)), "number", 4321)` throws "Cannot redefine property: number"; test/test_utils_test.js:7-13 expects 4321, then 1234 after `restore()` | the accessors `env` installs are configurable, so that a stub replaces them and `restore()` puts them back | high, not executed | Override.StubOptionalNumberAsWritten | Override.StubbableEnvRoundTrip |
