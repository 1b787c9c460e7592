# Coded-error registry, modelled in Dafny

This project models the core of a small Go coded-error library (package
`errors`). Application code registers integer error codes together with an
HTTP status and a user-facing text in a process-wide table. It wraps failures
into coded error nodes that link to their cause. At the boundary it asks
either what the error is (`ParseCoder`, which reads only the outermost node)
or whether a given code occurs anywhere on the chain (`IsCode`, which follows
causes through consecutive coded nodes).

Layout, one module per component:

- `results.dfy`, module `Results`: `Option` (a Go interface value that may be nil) and `Result` (a call that returns or panics).
- `coder.dfy`, module `Coders`: the `defaultCoder` record as `Coder`, with `HTTPStatus`, `Code` and `String`, and the sentinel `Unknown` for code 0.
- `registry.dfy`, module `Registry`: the code table as `map<int, Coder>`, its initial value, `Register`, `MustRegister`, sequences of registration calls, and the table invariant `Valid`. `Valid` says every entry is filed under its own code and code 0 holds the sentinel.
- `chain.dfy`, module `CodedErrors`: errors as `Nil | Plain(text) | WithCode(code, msg, cause)`, plus `Wrapc`, `ParseCoder`, `IsCode` and an independent description of the chain (`Depth`, `Follow`, `HasCodeAt`) that `IsCode` is proved against.
- `scenario.dfy`, module `ConfigScenario`: the configuration-loading scenario of `pkg/errors/mocks_test.go`.

A panic in the source is a `Failure(Fault)` here. The failing call returns no
table, so the caller still holds the table it had. `Registry.After` and
`Registry.Run` spell this out for sequences of calls.

The doc comment on `HTTPStatus` (pkg/errors/code.go:50-51) says an unset
status returns 200. The code returns 500 (pkg/errors/code.go:53-55). The model
follows the code.

`withCode` and `Wrapc` are defined in a file that is not part of this model.
`Wrapc(cause, c, m)` with a non-nil `cause` is ASSUMED to build the node
`WithCode(c, m, cause)`. Only the fields that `code.go` reads from a
`*withCode` (its `code` and its `cause`) matter to the classifiers.

## Model

| member | source | states |
|---|---|---|
| `Coders.Coder.HTTPStatus` | pkg/errors/code.go:50-58 | the status is never 0: an unset (0) status reads as 500 and any other stored status is returned unchanged |
| `Coders.UnknownIsReserved` | pkg/errors/code.go:15-21 | the sentinel has code 0, HTTP status 500 and the text "An internal server error occurred" |
| `Registry.Init` | pkg/errors/code.go:9-25 | the initial table has exactly one key, 0, bound to the sentinel, and satisfies the table invariant |
| `Registry.Register` | pkg/errors/code.go:71-82 | fails with the reserved-code fault exactly when the code is 0; otherwise files the coder under its code, keeps every other entry, adds no other key, and preserves the invariant |
| `Registry.MustRegister` | pkg/errors/code.go:84-99 | fails exactly when the code is 0 (reserved fault) or already present (code-exists fault naming the code); otherwise has the same effect as Register and grows the table by exactly one entry |
| `Registry.RegisterTwiceLastWins` | pkg/errors/code.go:71-82 | two Register calls with the same non-zero code both succeed, and the table ends up as if only the second coder had been registered |
| `Registry.MustRegisterTwiceFails` | pkg/errors/code.go:84-99 | after a successful MustRegister, a second MustRegister of the same code always fails with the code-exists fault |
| `Registry.RegisterAll` | pkg/errors/code.go:71-82 | Register over a list of coders in order fails exactly when some coder has code 0; on success each code is filed with the last coder that carries it, all other entries are untouched, and the invariant is preserved |
| `Registry.After` | pkg/errors/code.go:73-99 | a registration call that panics leaves the table as it was; no call removes a key or breaks the invariant |
| `Registry.RunKeepsValid` | pkg/errors/code.go:71-99 | any sequence of Register/MustRegister calls keeps the invariant, never removes a code, and leaves code 0 bound to the sentinel |
| `Registry.SentinelSurvives` | pkg/errors/code.go:23-25 | starting from the initial table, the sentinel at code 0 survives every sequence of registration calls |
| `CodedErrors.Wrapc` | pkg/errors/mocks_test.go:31-34 | (assumed) wrapping a non-nil cause yields a coded node carrying the given code, message and cause |
| `CodedErrors.ParseCoder` | pkg/errors/code.go:101-116 | no metadata exactly for no error; the sentinel for an uncoded error or an unregistered outermost code; the registered coder for a registered outermost code; on a well-keyed table the result's code is 0 or the outermost node's code |
| `CodedErrors.IsCode` | pkg/errors/code.go:118-133 | a positive answer requires a coded node at the head of the chain; no error and uncoded errors never match |
| `CodedErrors.FollowWithinDepth` | pkg/errors/code.go:119-126 | every node within the leading run of coded nodes is a coded node |
| `CodedErrors.FollowAtDepth` | pkg/errors/code.go:125-132 | the node after the leading run of coded nodes is not coded, so the run IsCode walks is maximal |
| `CodedErrors.IsCodeIff` | pkg/errors/code.go:118-133 | IsCode(err, c) holds exactly when some node of the maximal leading run of coded nodes carries c (both directions) |
| `CodedErrors.ParseCoderHeadOnly` | pkg/errors/code.go:109-113 | classification of a coded node does not depend on its message or on anything below it in the chain |
| `CodedErrors.ParseCoderAfterRegister` | pkg/errors/code.go:104-116 | after registering a coder with a non-zero code, wrapping any error with that code classifies as exactly that coder |
| `CodedErrors.ParseCoderFallbackIsEntryZero` | pkg/errors/code.go:104-116 | on a valid table, a classification with code 0 is the table's own entry for 0 |
| `CodedErrors.ParseCoderImpliesIsCode` | pkg/errors/code.go:104-133 | on a well-keyed table, a non-zero classification names a code that IsCode finds on the chain |
| `CodedErrors.HeadOnlyVersusWholeChain` | pkg/errors/code.go:104-133 | a chain whose inner code is registered but outer code is not is matched by IsCode for the inner code yet classified as the sentinel |
| `ConfigScenario.CodesAreConsecutive` | pkg/errors/mocks_test.go:7-12 | the four scenario codes are 1000, 1001, 1002 and 1003 |
| `ConfigScenario.TestInit` | pkg/errors/mocks_test.go:14-19 | the test init never panics; it files codes 1000-1003 with their coders, adds no other key, keeps every other entry, and preserves the invariant |
| `ConfigScenario.TestTableFrom` | pkg/errors/mocks_test.go:14-19 | from a table holding only the sentinel, the test init yields exactly the sentinel plus the four test coders |
| `ConfigScenario.TestTable` | pkg/errors/mocks_test.go:14-19 | after both init functions the table is exactly code 0 (sentinel) and 1000-1003 with their texts, all answering HTTP 500 |
| `ConfigScenario.ReadConfig` | pkg/errors/mocks_test.go:31-34 | readConfig yields a node coded 1002 whose cause is an uncoded error |
| `ConfigScenario.DecodeConfig` | pkg/errors/mocks_test.go:26-29 | decodeConfig yields a node coded 1001 whose cause is readConfig's error |
| `ConfigScenario.LoadConfig` | pkg/errors/mocks_test.go:21-24 | loadConfig yields a node coded 1000 whose cause is decodeConfig's error |
| `ConfigScenario.LoadConfigChain` | pkg/errors/mocks_test.go:21-34 | loadConfig's chain has three coded nodes carrying 1000, 1001, 1002 from outermost to innermost, over an uncoded error |
| `ConfigScenario.ParseLoadConfig` | pkg/errors/mocks_test.go:14-24 | classifying loadConfig's error after the test init yields the coder for 1000, "ConfigurationNotValid error" with HTTP 500 |
| `ConfigScenario.IsCodeLoadConfig` | pkg/errors/mocks_test.go:21-34 | IsCode on loadConfig's error is true exactly for 1000, 1001 and 1002; false for 1003 (registered, not on the chain) and every other code |

## Left out

- Locking: the mutex around registration (pkg/errors/code.go:11, 78-79, 91-92) is concurrency. So is the unsynchronised read in `ParseCoder`. The table is a single-threaded value here.
- Panic messages: the `panic` text and the `fmt.Sprintf` formatting (pkg/errors/code.go:75, 88, 95) become the `Fault` values `ReservedCode` and `CodeExists(code)`.
- Interface dispatch: `Coder` is an interface in Go. The model uses the one concrete record `defaultCoder` and one error datatype in place of the `*withCode` type assertion.
- `net/http`: the status constant is the literal 500.
- CodedErrors.Wrapc: it requires a non-nil cause. What `Wrapc` does with a nil cause is defined in a file that is not part of this model. Its `Error()` formatting, `Unwrap`/`errors.Is` integration and stack capture are left out too.
- `fmt.Errorf` in the test (pkg/errors/mocks_test.go:32) becomes an opaque `Plain` error.
- `Coder.Code` and `Coder.String` are plain field accessors. They have no contract of their own and are used by the members above.
