# env: a typed configuration loader, modelled in Dafny

The Go package `env` loads configuration from key/value pairs. A `Loader`
(Go's `Env`) is bound to a source: a fixed map (`FromMap`), or a prefixed
view of another loader (`Prefix`), where looking up `k` means looking up
`prefix + k`. Each registration call (`String`, `OptionalString`, `Int`,
`OptionalInt`, `Float`, `OptionalFloat`, `Bool`, `OptionalBool`, `Flag`,
`List`, `OptionalList`, `Set`, `OptionalSet`) appends one binding: a key,
an optional destination (`&foo` or `nil`), a description, and, for the
optional forms, a default. `Load` resolves every binding in registration
order and writes decoded values or defaults to the destinations; it fails
with `missing environment variables: K1, K2` when required keys are absent.
`Help` renders one line `<effective key> -- <description>` per binding.

The model follows the behaviour that the package's tests (`env_test.go`) fix.

Files and modules:

- `options.dfy` (`Options`): the `Option` datatype.
- `text.dfy` (`Text`): `Split` and `Join` with Go's `strings.Split` and
  `strings.Join` behaviour, and their two round trips.
- `decode.dfy` (`Decode`): base-10 integers with an optional sign, the
  booleans `true` and `false`, and the set built from split parts.
- `source.dfy` (`Sources`): the source as a chain of prefixed views over a
  map; a lookup through the chain is one lookup of the effective key.
- `binding.dfy` (`Bindings`): bindings as a tagged union over the kinds, and
  `Resolve`, the rule for one binding given what its key found.
- `resolution.dfy` (`Resolution`): `Load` and `Help` as functions of the
  source and the bindings (`LoadOutcome`, `LoadValues`, `HelpText`), with the
  loader's promises proved about them.
- `env.dfy` (`Env`): the `Loader` class. Its registration methods append to
  its `bindings` field; `Load` and `Help` are loops proved to compute the
  functions of `Resolution`.
- `scenarios.dfy` (`Scenarios`): client methods that replay each situation of
  `env_test.go` against the class and assert the expected outcome and values.

A destination is modelled by the binding's `Destination` (`Slot` for a
pointer, `Nil` for nil). `Load` returns the values it writes as a map from
binding index to value; an index absent from the map is a destination left
untouched.

Design choice for malformed values. The tests never give a present value
that fails to decode (non-numeric text for an `Int`, say). The model stops
`Load` at the first such binding and reports `BadValue(effective key)`;
destinations written before it keep their values; missing keys seen before
it are not reported. `ReportsFirstBadValue` and `KeepsWritesBeforeBadValue`
state this. The text of that
error is not modelled.

Missing keys are listed in registration order, not sorted. The tests fix
only the one-key message.

## Model

| member | source | states |
|---|---|---|
| Text.IndexFrom | env_test.go:284-297 | finds the first occurrence of the delimiter at or after a position, and no earlier one exists |
| Text.Split | env_test.go:284-297 | an empty delimiter gives one part per character; otherwise there is at least one part, no part contains the delimiter, a value without the delimiter is its own single part, and the first part is the text before the leftmost occurrence |
| Text.Explode | env_test.go:290 | an empty delimiter splits a value into its characters, one part each, in order |
| Text.JoinSplit | env_test.go:284-297 | joining the parts of a split with the same delimiter gives back the raw value: splitting loses nothing and keeps order |
| Text.SplitJoin | env_test.go:284-297 | splitting the join of parts that lack the delimiter's first character gives back exactly those parts, in order |
| Text.SplitCons | env_test.go:286 | a leading part that lacks the delimiter's first character is split off as the first part |
| Text.SplitCutsLeftmost | env_test.go:284-297 | with a non-empty delimiter, the first part of a split is the text up to the delimiter's leftmost occurrence and the remaining parts split the text after that occurrence in the same way; a value without the delimiter is the only part. Every cut is therefore at a leftmost occurrence, also when the delimiter overlaps itself |
| Text.SplitOverlapping | env_test.go:284-297 | a delimiter that overlaps itself is cut leftmost: "aaaaa" on "aa" gives "", "", "a" |
| Text.Join | env_test.go:25-29 | the joined text starts with the first part, and its length is the parts' lengths plus one separator between each two neighbours |
| Decode.ParseInt | env_test.go:148-163 | a text is accepted exactly when it is a non-empty run of digits, optionally after one '+' or '-'; a result after '-' is non-positive, otherwise non-negative |
| Decode.IntRoundTrip | env_test.go:148-163 | parsing the decimal spelling of any integer (as `%v` prints it) gives that integer back |
| Decode.ParseInt123 | env_test.go:149-151 | the text "123" decodes to the integer 123 |
| Decode.ParseIntPadded | env_test.go:148-185 | any number of leading zeros leave a value unchanged, an explicit '+' keeps it, and '-' negates it ("007" is 7, "+5" is 5, "-0" is 0) |
| Decode.ParseBool | env_test.go:226-260 | a text decodes to a boolean exactly when it is that boolean's spelling "true" or "false" |
| Decode.ToSet | env_test.go:319-332 | the set holds exactly the parts, each mapped to true, duplicates merged |
| Sources.Lookup | env_test.go:32-60 | a lookup through any chain of prefixed views is the lookup of the effective key (the chain's KeyPrefix followed by the key) in the underlying map, so an unprefixed key does not satisfy a prefixed loader |
| Sources.PrefixesCompose | env_test.go:99-106 | prefixing with "MATH_" then "CONSTANTS_" looks keys up, and reports their EffectiveKey, under the concatenated prefix |
| Bindings.Resolve | env_test.go:109-353 | a binding is missing exactly when it is required and its key is absent; only a present int or bool value can fail to decode |
| Bindings.ResolveRules | env_test.go:109-353 | an absent key is an error exactly for a required binding; an absent optional key yields its default verbatim; a flag is presence; strings are copied, lists split, sets split into members; only int and bool can fail to decode |
| Bindings.ListDecodeLossless | env_test.go:284-297 | a list value decodes to parts that join back to the raw text |
| Bindings.SetDecodeMembers | env_test.go:319-332 | a set value decodes to exactly the split parts, each mapped to true |
| Resolution.Message | env_test.go:25-29 | the error text starts with "missing environment variables: "; for one key it is that header followed by the key |
| Resolution.Run | env_test.go:13-29 | a partial load over the first n bindings writes only to destinations of those bindings that are pointers |
| Resolution.RunWrites | env_test.go:109-124 | every value a partial load writes is the value its binding resolves to |
| Resolution.LoadOutcome | env_test.go:18-29 | a missing-variables failure always names at least one key |
| Resolution.LoadValues | env_test.go:109-124 | Load writes only to bindings that exist and have a pointer destination; a nil destination is never written |
| Resolution.MissingOf | env_test.go:18-29 | a key is listed exactly when it is the effective key of a required binding whose key is absent |
| Resolution.MissingOfAppend | env_test.go:18-29 | the missing keys of more bindings are those of the first ones followed by those of the rest: registration order |
| Resolution.MissingOfEmpty | env_test.go:10-16 | no key is listed exactly when no required key is absent |
| Resolution.RunClean | env_test.go:13-29 | while values decode, a partial load has recorded the missing keys so far and written exactly the destinations of the bindings resolved to a value |
| Resolution.RunStops | env_test.go:148-163 | a load stops exactly when a present value fails to decode, and records the first such key |
| Resolution.LoadOkIff | env_test.go:10-16 | Load succeeds exactly when no required key is absent and every present value decodes |
| Resolution.ReportsAllMissing | env_test.go:18-29 | when values decode, Load fails exactly when some required key is absent, listing all such effective keys in registration order |
| Resolution.ReportsFirstBadValue | env_test.go:148-163 | Load reports a bad value exactly when some present value fails to decode, naming the first one |
| Resolution.KeepsWritesBeforeBadValue | env_test.go:148-163 | when the j-th binding is the first whose value fails to decode, Load reports its key and the values written are those of the bindings before it |
| Resolution.WritesDestinations | env_test.go:109-124 | when values decode, Load writes exactly the destinations of bindings that resolve to a value, with that value, and nothing else |
| Resolution.SingleMissingMessage | env_test.go:18-29 | one required binding with an absent key, with or without a destination, fails with "missing environment variables: " followed by its prefixed key |
| Resolution.MessageListsKeys | env_test.go:25-29 | the error text is the header followed by the keys, which split back out on ", " |
| Resolution.HelpLine | env_test.go:87-97 | a help line starts with the effective key and has no newline when key, prefix and description have none |
| Resolution.HelpText | env_test.go:87-97 | the help text is empty exactly when there are no bindings, and otherwise ends with a newline |
| Resolution.HelpTextAppend | env_test.go:87-97 | registering more bindings appends their lines after the existing ones: registration order |
| Resolution.HelpTextIgnoresKinds | env_test.go:87-97 | the help text depends on keys and descriptions only, whatever the binding kinds |
| Resolution.HelpTextLines | env_test.go:87-97 | the help text splits on newlines into one "<prefix><key> -- <description>" line per binding, in order, each newline-terminated |
| Env.Loader.FromMap | env_test.go:11 | a new loader reads the given map and has no bindings |
| Env.Loader.Prefix | env_test.go:99-106 | a new loader over the same source with the prefix appended and no bindings of its own; the parent is unchanged |
| Env.Loader.String | env_test.go:12 | appends a required string binding |
| Env.Loader.OptionalString | env_test.go:134-135 | appends an optional string binding with its default |
| Env.Loader.Int | env_test.go:156 | appends a required int binding |
| Env.Loader.OptionalInt | env_test.go:173-174 | appends an optional int binding with its default |
| Env.Loader.Float | env_test.go:100 | appends a required float binding |
| Env.Loader.OptionalFloat | env_test.go:212-213 | appends an optional float binding |
| Env.Loader.Bool | env_test.go:231 | appends a required bool binding |
| Env.Loader.OptionalBool | env_test.go:248-249 | appends an optional bool binding with its default |
| Env.Loader.Flag | env_test.go:270-271 | appends a flag binding |
| Env.Loader.List | env_test.go:290 | appends a required list binding with its delimiter |
| Env.Loader.OptionalList | env_test.go:305-306 | appends an optional list binding with its delimiter and default |
| Env.Loader.Set | env_test.go:325 | appends a required set binding with its delimiter |
| Env.Loader.OptionalSet | env_test.go:341-342 | appends an optional set binding with its delimiter and default |
| Env.Loader.Load | env_test.go:13-29 | the outcome and the values written are LoadOutcome and LoadValues of the loader's source and bindings |
| Env.Loader.Help | env_test.go:87-97 | the text is HelpText of the loader's key prefix and bindings; the source is not consulted |
| Scenarios.SplitCountryCodes | env_test.go:284-297 | "de,fr,it" split on "," is ["de", "fr", "it"] |
| Scenarios.SetOfCountryCodes | env_test.go:319-332 | the set of "de", "it", "fr" is {de: true, it: true, fr: true} |
| Scenarios.SplitThree | env_test.go:284-297 | three parts that lack the delimiter's first character, joined with it, split back into exactly those parts |
| Scenarios.HostPortHelp | env_test.go:87-97 | the help text of bindings HOST "hostname" and PORT "port number" is "HOST -- hostname\nPORT -- port number\n" |
| Scenarios.MapSourceScenario | env_test.go:10-30 | over {FOO: abc}, a required FOO loads; a required BAR fails with "missing environment variables: BAR" |
| Scenarios.PrefixSourceScenario | env_test.go:33-39 | a loader prefixed "PRE_" over {PRE_FOO: abc} loads a required FOO |
| Scenarios.PrefixSourceUnprefixedScenario | env_test.go:41-45 | a loader prefixed "PRE_" over {FOO: abc} reports FOO missing |
| Scenarios.PrefixSourceMissingScenario | env_test.go:47-59 | a prefixed loader with an absent BAR fails with "missing environment variables: PRE_BAR" |
| Scenarios.HelpScenario | env_test.go:87-97 | a loader with HOST and PORT renders "HOST -- hostname\nPORT -- port number\n" |
| Scenarios.PrefixedHelpScenario | env_test.go:99-106 | a loader prefixed "MATH_" then "CONSTANTS_" renders its PI binding under MATH_CONSTANTS_PI |
| Scenarios.StringScenario | env_test.go:109-124 | a present string is loaded and written verbatim |
| Scenarios.OptionalStringScenario | env_test.go:126-146 | a present optional string is written; an absent one gets its default |
| Scenarios.IntScenario | env_test.go:148-163 | "123" is loaded and written as the integer 123 |
| Scenarios.OptionalIntScenario | env_test.go:165-185 | a present optional int is decoded; an absent one gets its default 456 |
| Scenarios.BoolScenario | env_test.go:226-238 | "true" is loaded and written as true |
| Scenarios.OptionalBoolScenario | env_test.go:240-260 | a present optional bool is decoded; an absent one gets its default |
| Scenarios.FlagScenario | env_test.go:262-282 | a present flag is written as true and an absent one as false |
| Scenarios.ListScenario | env_test.go:284-297 | "de,fr,it" is loaded as the list de, fr, it |
| Scenarios.OptionalListScenario | env_test.go:299-317 | a present optional list is split; an absent one gets its default dk, se |
| Scenarios.SetScenario | env_test.go:319-332 | "de,it,fr" is loaded as the set {de, it, fr} |
| Scenarios.OptionalSetScenario | env_test.go:334-353 | a present optional set is split into members; an absent one gets its default |

## Left out

- The process-environment source (`New`, env_test.go:62-85): it reads global process state; a map source stands in for it.
- Floating-point values: a `Float` or `OptionalFloat` binding is checked for presence (a required one with an absent key is reported missing) but its value is neither decoded nor written, and `OptionalFloat` takes no default.
- Decode.ParseBool: accepts only "true" and "false"; strconv.ParseBool's other spellings ("1", "t", "TRUE", ...) are library code outside this model.
- Decode.ParseInt: integers are unbounded; the range error Go reports for values that do not fit in `int` is not modelled.
- The text of the error for a present value that fails to decode: the tests do not fix it; the model reports only the key.
- Pointer aliasing: two bindings that share one destination are two entries of the result map; in Go the later write wins.
- The float situations (env_test.go:187-224) are not replayed in `Scenarios`: float values are not decoded.
- `reflect.DeepEqual` and `fmt.Sprintf`, used by the tests, are replaced by Dafny equality and literal texts.
- The empty-delimiter and empty-value cases of `Split` follow Go's strings.Split; the tests only fix "de,fr,it".
