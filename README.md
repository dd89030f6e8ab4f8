# flagd configuration builder and prefixed identifiers, modelled in Dafny

This project models the decision logic of the flag service. It stores features and
per-context feature states, and compiles them into a flagd flag-definition document.

- `flagd_config.dfy` (module `FlagdConfig`) models the configuration builder.
  `GetFeatureState` walks the feature states in list order. It returns the `state` of
  the first entry that carries the requested feature key and a recognised context type
  (`"workspace"`, `"organization"` or `"global"`). It returns `false` when no entry
  qualifies. `GenerateFlagdConfig` starts from the schema URL
  `https://flagd.dev/schema/v0/flags.json` and an empty `flags` dictionary. It then
  writes one entry per feature, keyed by the feature's key. The entry holds `ENABLED`
  and default variant `on` when the search found `true`, and `DISABLED` and `off`
  otherwise. The variants are always `{on: true, off: false}`. Both operations are
  methods with loops, each proved against a functional specification:
  `FeatureStateOf` for the search and `FlagsAfter` for the dictionary after the loop.
  The lemmas about those two functions state what the source promises.
- `ids.dfy` (module `Ids`) models the identifier scheme. Each entity kind has a
  three-letter prefix (`ftr` for features, `fst` for feature states). A validator per
  kind accepts exactly the strings that start with that prefix. An identifier is the
  prefix, a separator (default `_`) and a random suffix. The suffix has a given length
  (default 12) and is drawn from the 62 ASCII letters and digits.
- `scenarios.dfy` (module `FlagdScenarios`) states the builder's results on the
  fixture data of the integration test.
- `option.dfy` (module `Optional`) holds the `Option` type. It is used for nullable
  columns and for options left undefined.

The builder emits no `targeting` block. It has no per-context rules and no precedence
between context types other than list order. The context id of a state never
influences the output. Every flag's `defaultVariant` follows the search result
(apps/flag-service/src/schema.ts:112-119).

The `flags` dictionary of the source is a plain JavaScript object. Writing the key
`"__proto__"` into such an object changes its prototype and adds no flag. The model
keeps both views. `FlagsAfterAsWritten` is the plain-object behaviour, and
`FlagsAfter` is the dictionary with one flag per feature key, which
`GenerateFlagdConfig` returns. `AsWrittenDropsOnlyProtoKey` proves the two differ
only at that key (see "## Findings").

The two database reads that feed the builder become
the two list parameters `featuresList` and `featureStatesList`. Each feature state
carries its joined feature record, as the query with `feature: true` returns it. The
random suffix of an identifier comes from a foreign generator. It is a parameter, and
what that generator guarantees about it (length and alphabet) is a precondition.

## Model

| member | source | states |
|---|---|---|
| `FlagdConfig.GetFeatureState` | apps/flag-service/src/schema.ts:126-142 | the loop with early return yields exactly `FeatureStateOf(key, list)`: the first-match search |
| `FlagdConfig.FirstQualifyingDecides` | apps/flag-service/src/schema.ts:130-139 | if `i` is the smallest index whose entry has the key and a recognised context type, the result is `list[i].state` |
| `FlagdConfig.NoQualifyingMeansDisabled` | apps/flag-service/src/schema.ts:141 | when no entry qualifies, including for an empty list, the result is `false` |
| `FlagdConfig.FeatureStateOfCharacterised` | apps/flag-service/src/schema.ts:130-141 | the result is `true` if and only if a first qualifying entry exists and its state is `true` |
| `FlagdConfig.UnqualifiedEntryIgnored` | apps/flag-service/src/schema.ts:131-138 | an entry with another key, or with the key but an unrecognised context type, is skipped: removing it from anywhere in the list does not change the result |
| `FlagdConfig.ContextIdIrrelevant` | apps/flag-service/src/schema.ts:130-139 | two lists that differ only in context ids give the same result |
| `FlagdConfig.GenerateFlagdConfig` | apps/flag-service/src/schema.ts:84-123 | the output has the fixed schema URL; its flags are the dictionary `FlagsAfter` that the write loop builds; the flag keys are exactly the feature keys; every flag has variants `{on: true, off: false}`, and its state is `ENABLED` and its default variant is `on` exactly when the search for its key returns `true` |
| `FlagdConfig.FlagsAfterKeyed` | apps/flag-service/src/schema.ts:107-120 | after the write loop, the dictionary's keys are exactly the feature keys, and each entry depends only on its key and the search result for that key |
| `FlagdConfig.FlagEntriesAgree` | apps/flag-service/src/schema.ts:111-118 | for every feature key, `state == ENABLED` iff `defaultVariant == on` iff the search returns `true`; the variants are fixed |
| `FlagdConfig.SameKeysSameFlags` | apps/flag-service/src/schema.ts:110-120 | two feature lists with the same key set give the same flags |
| `FlagdConfig.PermutedFeaturesSameFlags` | apps/flag-service/src/schema.ts:110-120 | reordering the features does not change the flags |
| `FlagdConfig.RepeatedKeyChangesNothing` | apps/flag-service/src/schema.ts:110-120 | a feature whose key was already written overwrites its entry with an identical one |
| `FlagdConfig.OrphanStateIgnored` | apps/flag-service/src/schema.ts:107-112 | a feature state whose key names no feature neither adds a flag nor changes one |
| `FlagdConfig.ContextIdsDoNotAffectFlags` | apps/flag-service/src/schema.ts:110-120 | changing only the context ids of the states leaves every flag unchanged |
| `FlagdConfig.AsWrittenDropsOnlyProtoKey` | apps/flag-service/src/schema.ts:107-120 | with `flags` a plain object, the loop yields the one-flag-per-key dictionary minus the key `"__proto__"`, and agrees with it on every other key |
| `FlagdConfig.ProtoKeyDropped` | apps/flag-service/src/schema.ts:112 | a feature keyed `"__proto__"` gets no flag from the plain-object loop, although the intended dictionary has one |
| `FlagdScenarios.IntegrationTestExpectations` | apps/flag-service/test/flag-service.test.ts:23-49 | with feature1 having a workspace state `true` and feature2 one `false`, feature1 is `ENABLED`/`on` and feature2 is `DISABLED`/`off`, and no other flag exists |
| `FlagdScenarios.UnrecognisedContextSkipped` | apps/flag-service/src/schema.ts:130-140 | an earlier entry with context type `"team"` is skipped, and the workspace entry after it decides |
| `Ids.Prefix` | apps/flag-service/src/id.ts:4-7 | every prefix has three characters |
| `Ids.PrefixInjective` | apps/flag-service/src/id.ts:4-7 | distinct entity kinds have distinct prefixes |
| `Ids.IdSchema` | apps/flag-service/src/id.ts:17-21 | the validator for a prefix accepts a value iff it is a string at least as long as the prefix that agrees with the prefix at every one of its positions |
| `Ids.IsFeatureId` | apps/flag-service/src/id.ts:23 | the feature validator accepts a value iff it is a string that starts with `f`, `t`, `r` |
| `Ids.IsFeatureStateId` | apps/flag-service/src/id.ts:24 | the feature-state validator accepts a value iff it is a string that starts with `f`, `s`, `t` |
| `Ids.IdSchemaAcceptsExactlyPrefixed` | apps/flag-service/src/id.ts:17-21 | the validator for a prefix accepts a value iff it is a string that is the prefix followed by some string |
| `Ids.EqualLengthPrefixesExclusive` | apps/flag-service/src/id.ts:17-21 | no value passes the validators of two distinct prefixes of equal length |
| `Ids.FeatureAndFeatureStateIdsDisjoint` | apps/flag-service/src/id.ts:23-24 | no value is both a feature identifier and a feature-state identifier |
| `Ids.AlphabetIsAlphanumeric` | apps/flag-service/src/id.ts:57-60 | the suffix alphabet has 62 characters and holds exactly the ASCII letters and digits |
| `Ids.GenerateId` | apps/flag-service/src/id.ts:53-62 | an identifier is the three-letter prefix, then the separator, then `length` alphabet characters, and its length is the sum of the three |
| `Ids.GeneratedIdPassesOwnSchema` | apps/flag-service/src/id.ts:17-21 | every generated identifier passes the validator of its own prefix |
| `Ids.GeneratedFeatureIdIsFeatureId` | apps/flag-service/src/id.ts:23-24 | a generated feature identifier passes the feature validator and fails the feature-state validator |
| `Ids.GeneratedFeatureStateIdIsFeatureStateId` | apps/flag-service/src/id.ts:23-24 | a generated feature-state identifier passes the feature-state validator and fails the feature validator |
| `Ids.DefaultIdShape` | apps/flag-service/src/id.ts:55 | with no options, an identifier has 16 characters, `_` at index 3 and the suffix from index 4 on |
| `Ids.GenerateIdInjective` | apps/flag-service/src/id.ts:61 | with the same options, two generated identifiers are equal only if their entity kinds and suffixes are equal |
| `Ids.DefaultFeatureIdExample` | apps/flag-service/src/id.ts:29-52 | the suffix `abc123def456` is valid, and with it a feature gets `ftr_abc123def456` |

## Left out

- FlagdConfig.GenerateFlagdConfig: returns one flag for every feature key, including `"__proto__"`, for which the source's plain-object `flags` (apps/flag-service/src/schema.ts:107, 112) emits none; that behaviour is modelled by `FlagsAfterAsWritten` and recorded under "## Findings".
- FlagdConfig.FlagsAfterKeyed: states the key set of the intended dictionary, `KeysOf(features)`; the source's plain object has `KeysOf(features) - {"__proto__"}`, as `AsWrittenDropsOnlyProtoKey` proves.
- FlagdConfig.FlagEntriesAgree: its `k in FlagsAfter(...)` holds of the intended dictionary; for `k == "__proto__"` the source's plain object has no entry (see `ProtoKeyDropped`).
- Other plain-object effects of writing `"__proto__"` (the object's prototype is replaced by the written entry) are not modelled: JSON serialisation of the document ignores the prototype.

- Database reads in `generateFlagdConfig` (apps/flag-service/src/schema.ts:85-90): they are I/O through a foreign query library, so they become list parameters. A failing read, which the HTTP handler turns into an error response, is not modelled.
- Table and validator declarations (apps/flag-service/src/schema.ts:15-82): used only to shape `Feature` and `FeatureState`. The `createdAt`/`updatedAt` timestamps are dropped because the builder never reads them.
- The uniqueness index on `(featureId, contextType, contextId)` and the foreign key (apps/flag-service/src/schema.ts:38-41, 54-58) are enforced by the database. The builder needs neither, so they are not preconditions.
- The random generator call in `generateId` (apps/flag-service/src/id.ts:57-60) is a foreign, random call. The suffix is a parameter instead, and `ValidSuffix` states what the generator guarantees about it.
- `Ids.GenerateId`: the `length` option is modelled as a natural number. Negative or fractional JavaScript numbers are not modelled.
- `Ids.Alphabet` is built from three character ranges (digits, `A`-`Z`, `a`-`z`) rather than written as the 62-character literal. `AlphabetIsAlphanumeric` proves it holds the same 62 characters, but equality with the literal string is not stated as a lemma.
- The compile-time types of the validators (`FeatureId`, `FeatureStateId` as template-literal types) have no runtime behaviour beyond the predicate, which is modelled.
- HTTP routes, middleware, migrations, database connection setup, environment parsing, server bootstrap, the backend's flag evaluation through an external provider and the frontend provider are not part of this model. They are plumbing around the core or belong to other programs.

## Findings

| source | as written | input that shows it | evidently intended | confidence | as-written member | corrected member |
|---|---|---|---|---|---|---|
| apps/flag-service/src/schema.ts:107-112 | `flags` is the object literal `{}` and each flag is stored with `config.flags[feature.key] = …`; for the key `"__proto__"` this calls the inherited prototype setter and creates no own property, so the serialised document has no flag for that feature | `featuresList = [{key: "__proto__", …}]` with any states: the document's `flags` is empty | one flag per feature key, whatever the key | medium; not executed | `FlagdConfig.ProtoKeyDropped` | `FlagdConfig.FlagsAfterKeyed` |
