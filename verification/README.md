# Verified models of predictor-common

Dafny models of the parts of this monorepo where a small amount of code carries a hard promise, with proofs of those
promises. Check everything with `dafny verify dfyconfig.toml`.

| file | what it models |
|---|---|
| `Prelude.dfy`, `Digits.dfy` | shared: `Option`/`Result`, powers, division, decimal digit strings |
| `SplitWords.dfy` | the logger's key-word splitting: two regular-expression rewrites, a split, a filter |
| `Redact.dfy` | the logger's redaction of a possibly shared, possibly cyclic object graph with its mutable path set |
| `Fragments.dfy`, `Spreads.dfy` | the GraphQL fragment worklist over real text, and the registry that stores definitions; fragment spreads as GraphQL reads them, against the pattern that looks for them |
| `Amount.dfy` | token amounts: parser, printer, thousands separators |
| `Scale.dfy`, `Bytes.dfy`, `Hex.dfy` | SCALE `compact` with JavaScript's 32-bit shifts and masks, `u64le`, `concatBytes`, hex, the heartbeat payload |
| `Submit.dfy` | error classification; `submitUnsigned` under every order of events |
| `Connection.dfy` | connect, disconnect, `api()` and the generation guard over WebSocket callbacks, calls from inside callbacks included |
| `TickLoop.dfy` | the tick loop under every interleaving, calls from inside a tick included |
| `CachedProbe.dfy` | the memoized health check |
| `Retry.dfy` | `withRetry`, the backoff curve, the progress marker and the two probes, in one timeline; `submitSigned` retried |
| `EntityCaches.dfy` | the entity cache against the store it speeds up |
| `Accounts.dfy` | the account upsert helper, on objects updated in place |
| `Router.dfy` | the event router against filter, map and first-distinct |
| `ChainCoords.dfy` | chain-coordinate id families |

Stateful code is a class whose methods do what the source's closures and methods do. Each method's contract ties the new
state to a step function, and the theorems are about all runs of the step function. Asynchrony is an arbitrary sequence of
atomic events; JavaScript's run-to-completion says which events may happen inside which calls.

## Where the code does less than its text says

Each of these is proved as an exact condition, with the code left as it is.

- `redact` keeps every key of a record except an own `__proto__`, which `out[k] = ...` turns into a prototype
  (`Redact.KeysSurvive`).
- camelCase names are split back into their words exactly when no two one-letter words meet after the first
  (`SplitWords.CamelCaseRoundTrip`); every key word of two letters or more is still caught (`SplitWords.KeyWordIsCaught`).
- The joined keys `apikey`, `privatekey`, ... catch `apiKey` and `privateKey`, but not `api_key`, `private_key` or
  `walletPrivateKey` (`SplitWords.CamelCaseIsRedactedExactly`, `SplitWords.JoinedIsRedactedExactly`,
  `SplitWords.JoinedKeysMissCompounds`).
- A GraphQL spread is found only if its name follows the dots at once, white space or one of `,{}()` follows the name, and
  no match begun further left runs across the dots. `... Name`, `...Name@include(if: $x)` and the second spread of
  `...A...B` are legal GraphQL (October 2021, section 2.8) and are missed (`Spreads.SpreadIsCaptured`); the document is
  self-contained exactly when everything needed is reached all the same (`Spreads.DocumentIsSelfContained`).
- `compact` can be decoded exactly below 2^536; beyond, the length no longer fits the first byte
  (`Scale.DecodeOfCompact`).
- `submitUnsigned` leaves its timer armed after settling exactly when `subscribe` throws before any event has decided
  (`Submit.TimerIsClearedExactly`).
- Calls from inside callbacks of the connection: the kept client is unheard, the recorded status is stale, the cached api
  belongs to a client that is gone, a client or a worker stays alive that nothing can reach (`ReentrantConnectIsDeaf`,
  `ApiFromInsideIsStale`, `SecondWorkerLeaks`), each exactly under the condition of `Connection.ClientIsHeardExactly`,
  `Connection.StatusIsCurrentExactly`, `Connection.ApiBelongsToClientExactly`, `Connection.ClientLeaksExactly` and
  `Connection.WorkerLeaksExactly`.
- `stop()` resolves with a tick still active exactly when the tick calls it from its own synchronous prefix; it leaves an
  interval alive exactly when a `start` has stored its handle over another's; `start()` after `stop()` ticks nothing but
  sets an interval (`TickLoop.StopDrainsExactly`, `TickLoop.StopClearsExactly`, `TickLoop.IntervalsReviveExactly`).
- A tick whose `onError` throws leaves an unhandled rejection, which lines 23-25 of `scheduler.ts` rule out, exactly when
  no `stop` awaits it (`TickLoop.UnhandledExactly`).
- The cached probe collapses a burst, and turns a failure into `false`, only for a check that returns a promise; every
  invocation is one of the spaced checks exactly when none throws before that (`CachedProbe.InvocationsAreChecksExactly`,
  `CachedProbe.ThrowingCheckIsHammered`).
- The liveness window that never kills a retrying service is above the longest attempt plus `maxBackoffDelayMs`, and no
  smaller one will do (`Retry.LivenessWindowExactly`).
- An id made from a negative component does not parse back (`ChainCoords.ParseOfMake`).
- An override that is an explicit `undefined` has no handler behind it and rejects the batch. So does a throw of any of
  the consumer's functions, and an unhandled event without its record; nothing else does (`Router.ThrowsAreNoticed`,
  `Router.BatchIsFilterMap`, `Router.CallsAreDispatched`).
- `fromHex` refuses odd lengths only; characters that are no hex digits are read all the same (`Hex.PairExactly`).

## Model

| member | source | states |
|---|---|---|
| SplitWords.SplitIsScan | packages/service/logger/src/index.ts:105-112 | the two rewriting passes, the split, the filter and the map equal one scan that starts a word at an uppercase letter after a lowercase letter or digit, or between an uppercase and a lowercase one |
| SplitWords.WordsAreTheLetters | packages/service/logger/src/index.ts:105-112 | the words put together are exactly the name's ASCII letters, lower-cased, in order |
| SplitWords.SplitOfCamelCase | packages/service/logger/src/index.ts:100-112 | the exact words of every camelCase name |
| SplitWords.CamelCaseRoundTrip | packages/service/logger/src/index.ts:100-112 | a camelCase name gives its words back if and only if no two one-letter words meet after the first |
| SplitWords.JoinedRoundTrip | packages/service/logger/src/index.ts:100-112 | snake_case and kebab-case names give their words back |
| SplitWords.SplitOfPascalCase | packages/service/logger/src/index.ts:100-112 | the exact words of every PascalCase name |
| SplitWords.UpperJoinedRoundTrip | packages/service/logger/src/index.ts:100-112 | SCREAMING_SNAKE_CASE names give their words back |
| SplitWords.KeyWordIsCaught | packages/service/logger/src/index.ts:52-62 | a key word of two letters or more is redacted in every camelCase, PascalCase, snake_case, kebab-case or SCREAMING_SNAKE_CASE name that contains it |
| SplitWords.CamelCaseIsRedactedExactly | packages/service/logger/src/index.ts:114-118 | a camelCase name is redacted if and only if its words run together are a key or one of its split words is |
| SplitWords.JoinedIsRedactedExactly | packages/service/logger/src/index.ts:114-118 | a snake_case or kebab-case name is redacted if and only if it is itself a key or one of its words is |
| SplitWords.UppercaseNamesAreRedactedExactly | packages/service/logger/src/index.ts:114-118 | the same two equivalences for PascalCase and SCREAMING_SNAKE_CASE names |
| SplitWords.AnyNameIsRedactedExactly | packages/service/logger/src/index.ts:114-118 | any name is redacted if and only if its lower-cased text is a key or a word of the one scan is |
| SplitWords.JoinedKeysMissCompounds | packages/service/logger/src/index.ts:65-87 | the joined keys of the default list catch `apiKey` and `privateKey`, but neither `api_key` and `private_key` nor `walletPrivateKey` |
| Redact.Redact | packages/service/logger/src/index.ts:127-149 | terminates on every finite graph, leaves the path set as it found it, and returns the specified tree |
| Redact.ResultAt | packages/service/logger/src/index.ts:127-149 | for every graph and every place: what stands there in the result, read off a walk through the graph |
| Redact.CircularExactly | packages/service/logger/src/index.ts:124-139 | an array or record reads `[circular]` at a place if and only if it is its own ancestor there |
| Redact.KeysSurvive | packages/service/logger/src/index.ts:141-146 | the keys of a record survive in order, all but an own `__proto__` |
| Redact.ResultIsMarked | packages/service/logger/src/index.ts:115-149 | at every depth of arrays and plain records a matching key holds the marker |
| Redact.RedactedValuesDoNotMatter | packages/service/logger/src/index.ts:127-149 | graphs that differ only below redacted keys give equal results |
| Redact.AcyclicIsTree | packages/service/logger/src/index.ts:120-149 | on acyclic graphs, diamonds included, the result is the plain redaction of the unfolded tree |
| Redact.RedactIsIdempotent | packages/service/logger/src/index.ts:127-149 | redacting an output again, however it lies in memory, gives it back |
| Fragments.AssembleDocument | packages/web/graphql-client/src/fragments.ts:29-50 | terminates on mutually recursive fragments; the document is the query and exactly the known fragments reachable from it, each once |
| Fragments.FoundSpreadsAreDefined | packages/web/graphql-client/src/fragments.ts:22-50 | every known name the pattern finds anywhere in the document's text is one of the fragments in it |
| Fragments.ResolutionIsUnique | packages/web/graphql-client/src/fragments.ts:22-50 | which fragments are appended is determined by the query and the definitions |
| Fragments.SpreadsOfJoin | packages/web/graphql-client/src/fragments.ts:15-20 | the spreads of a joined document are the spreads of its parts, in order |
| Spreads.LexicalSpreadsExactly | packages/web/graphql-client/src/fragments.ts:2-8 | what a spread is: the names a reader of the text finds, past comments and strings, are exactly those written behind three dots and ignored tokens |
| Spreads.CapturesExactly | packages/web/graphql-client/src/fragments.ts:15-20 | the names the pattern captures are exactly those written behind three dots and up to the next separator, where no earlier match runs across |
| Spreads.SpreadIsCaptured | packages/web/graphql-client/src/fragments.ts:15-20 | when the pattern finds a spread, wherever it stands in a text: name at once, separator behind, no earlier match across the dots |
| Spreads.SeparatedIsNotCrossed | packages/web/graphql-client/src/fragments.ts:15-20 | no match runs across a spread that stands behind a separator |
| Spreads.TightTextsExactly | packages/web/graphql-client/src/fragments.ts:15-20 | the texts all of whose spreads the pattern finds |
| Spreads.LexicalSpreadsOfJoin | packages/web/graphql-client/src/fragments.ts:49 | the spreads of a joined document are the spreads of its parts, if each part is complete |
| Spreads.DocumentIsSelfContained | packages/web/graphql-client/src/fragments.ts:22-50 | the document defines every known fragment spread in it, as GraphQL reads it, if and only if every fragment needed is reached by the pattern |
| Spreads.TightDocumentIsSelfContained | packages/web/graphql-client/src/fragments.ts:22-50 | a document of tight texts is self-contained |
| Spreads.SwallowedSpreadIsMissed | packages/web/graphql-client/src/fragments.ts:15-50 | `...A...B }` appends neither fragment |
| Spreads.RegisteredTextIsComplete | packages/web/graphql-client/src/fragments.ts:62-65 | what the registry writes around a complete body is complete and adds no spread |
| Fragments.FragmentTextSpreads | packages/web/graphql-client/src/fragments.ts:62-65 | a registered fragment spreads exactly what its name, type and body spread |
| Fragments.ConnectionSpreads | packages/web/graphql-client/src/fragments.ts:73-91 | the connection boilerplate adds no spread |
| Fragments.FragmentRegistry.Resolve | packages/web/graphql-client/src/fragments.ts:102-104 | resolving against the registry's definitions |
| Amount.ParseOfFormat | packages/web/ui/src/amount.ts:40-134 | a formatted amount, commas removed, parses back, for all decimals from 0 to 255 and all positive amounts up to the maximum |
| Amount.FormatOfParse | packages/web/ui/src/amount.ts:40-134 | an accepted text, parsed and formatted, comes back without white space and redundant zeros |
| Amount.FormatInjective | packages/web/ui/src/amount.ts:113-134 | for fixed decimals and symbol different integers have different texts |
| Amount.FormatExactly | packages/web/ui/src/amount.ts:113-139 | the printed text part by part: sign, grouped whole digits, point and fraction digits, symbol; the digits are the amount's exact decimal without redundant zeros |
| Amount.AcceptedExactly | packages/web/ui/src/amount.ts:40-78 | accepted is white space, digits, perhaps a point and at most `decimals` digits, white space; the value is the text's exact rational value scaled by 10^decimals, positive and at most `max` |
| Amount.ReadsExactly | packages/web/ui/src/amount.ts:50-61 | trimming and matching find exactly the decimal the text is, between white space |
| Amount.RejectedExactly | packages/web/ui/src/amount.ts:46-75 | for which texts each of the six errors is reported |
| Amount.SeparatorsGroupByThree | packages/web/ui/src/amount.ts:136-139 | the regular expression groups digits by three from the right |
| Scale.CompactBytes | packages/chain/scale/src/index.ts:18-43 | the 32-bit shifts and masks and the byte loop give the arithmetic encoding; negative values are refused |
| Scale.DecodeOfCompact | packages/chain/scale/src/index.ts:18-43 | decoding undoes the encoding, whatever follows, if and only if the value is below 2^536 |
| Scale.CompactPrefixFree | packages/chain/scale/src/index.ts:18-43 | no encoding is the start of another |
| Scale.CompactInjective | packages/chain/scale/src/index.ts:18-43 | different naturals have different encodings, also beyond the decodable range |
| Scale.CompactIsShortest | packages/chain/scale/src/index.ts:18-43 | the smallest mode is used: no other encoding of the value is as short |
| Scale.BigModeLength | packages/chain/scale/src/index.ts:35-42 | big-integer mode has at least four bytes |
| Scale.CompactLimit | packages/chain/scale/src/index.ts:35-42 | at most 67 of them exactly below 2^536 |
| Scale.FromLittleEndianInverse | packages/chain/scale/src/index.ts:36-41 | the loop's bytes read back as the value, and the last is not zero |
| Bytes.U64Le | packages/chain/scale/src/index.ts:46-54 | the eight low bytes of the value modulo 2^64 |
| Bytes.U64LeIsCongruence | packages/chain/scale/src/index.ts:46-54 | two integers have one encoding if and only if they agree modulo 2^64 |
| Bytes.ConcatBytes | packages/chain/scale/src/index.ts:6-15 | the offset loop concatenates |
| Bytes.ScaleBytes | packages/chain/scale/src/index.ts:60-63 | compact length, then the bytes |
| Bytes.DecodeOfScaleBytes | packages/chain/scale/src/index.ts:60-63 | a byte string can be read back off the front of any text |
| Hex.ToHex | packages/chain/scale/src/index.ts:65-69 | the accumulated string |
| Hex.FromHex | packages/chain/scale/src/index.ts:71-79 | odd lengths are refused; each pair is parsed the way `parseInt` does |
| Hex.HexBodyExactly | packages/chain/scale/src/index.ts:71-72 | one leading `0x` is dropped and nothing else; a text without it is taken whole |
| Hex.PairExactly | packages/chain/scale/src/index.ts:75-77 | the byte any two characters are read as, hex digits or not |
| Hex.FromHexOfToHex | packages/chain/scale/src/index.ts:65-79 | `fromHex` undoes `toHex` |
| Hex.ToHexOfFromHex | packages/chain/scale/src/index.ts:65-79 | `toHex` gives the lower-cased text back if and only if every character is a hex digit |
| Bytes.HeartbeatSigningPayload | packages/chain/node-manager/src/index.ts:19-27 | context, count and period in the order the pallet specifies |
| Bytes.PayloadDecodes | packages/chain/node-manager/src/index.ts:8-27 | the pallet's decoder reads the three fields back |
| Bytes.PayloadInjective | packages/chain/node-manager/src/index.ts:14-27 | two payloads are equal if and only if both counters agree modulo 2^64 |
| Submit.SubmissionOutcome | packages/chain/papi-chain/src/index.ts:242-286 | under every order of events, told from the events alone: the first one that settles decides; resolved if and only if it is a successful finalized dispatch, retryable if and only if a timeout or a transient error, permanent if and only if an invalid best block, a failed dispatch, an early end or a permanent error |
| Submit.RejectionSays | packages/chain/papi-chain/src/index.ts:255-282 | a rejection carries the error's own text, raw if `subscribe` threw it, or names the submission and ends in the dispatch error |
| Submit.SubscriptionIsDroppedOnce | packages/chain/papi-chain/src/index.ts:247-286 | the subscription is dropped exactly once, when it exists and an event has decided; the timer is armed until one has |
| Submit.SignedOutcomeExactly | packages/chain/papi-chain/src/index.ts:215-234 | a hash if and only if finalized and successful; retryable if and only if the failure is transient; permanent for a failed dispatch, whatever its text |
| Submit.TimerIsClearedExactly | packages/chain/papi-chain/src/index.ts:247-259 | when a settled submission leaves its timer armed |
| Submit.ThrowingSubscribeLeaksTheTimer | packages/chain/papi-chain/src/index.ts:255-261 | the leak with a concrete event |
| Submit.Submission.FinishWith | packages/chain/papi-chain/src/index.ts:247-253 | the first event settles, unsubscribes and clears the timer; later ones do nothing |
| Submit.Submission.Next | packages/chain/papi-chain/src/index.ts:262-278 | which chain events decide, and how |
| Connection.StatusIsCurrent | packages/chain/papi-chain/src/index.ts:148-199 | without calls from inside: the status is the latest delivered by the provider of the current connection, and the application hears exactly what that provider delivers while it is current |
| Connection.StatusIsCurrentExactly | packages/chain/papi-chain/src/index.ts:148-199 | over every run, calls from inside included: the application hears exactly that, and the status is the latest of it if and only if no connection was begun over a recorded status since |
| Connection.CallbackIsRecordedExactly | packages/chain/papi-chain/src/index.ts:135-170 | over every run: a callback is recorded and forwarded if and only if the call that built its provider is the last one that began to connect or disconnect; otherwise it changes nothing |
| Connection.NothingLeaks | packages/chain/papi-chain/src/index.ts:294-332 | without calls from inside, between calls a cached api belongs to the cached client, and no other client or worker is alive |
| Connection.ClientLeaksExactly | packages/chain/papi-chain/src/index.ts:148-157 | over every run: a client that is not cached stays alive if and only if a call of `client()` or `disconnect()` returned while a client was cached and alive |
| Connection.WorkerLeaksExactly | packages/chain/papi-chain/src/index.ts:184-191 | over every run: a worker that is not held keeps running if and only if a connection was begun while one was held |
| Connection.ClientIsHeardExactly | packages/chain/papi-chain/src/index.ts:137-167 | over every run, calls from inside included: the cached client's provider is heard if and only if the call that built it is the last one that began to connect or disconnect |
| Connection.ReentrantConnectIsDeaf | packages/chain/papi-chain/src/index.ts:148-167 | a concrete run in which it is not |
| Connection.ApiBelongsToClientExactly | packages/chain/papi-chain/src/index.ts:321-331 | between calls of every run: a cached api belongs to the cached client if and only if it was not cached from inside another call |
| Connection.ApiFromInsideIsStale | packages/chain/papi-chain/src/index.ts:321-331 | an `api()` called while the client is destroyed stays cached afterwards |
| Connection.Chain.BeginConnect | packages/chain/papi-chain/src/index.ts:148-191 | `client()` up to where callbacks may run: the generation or the worker |
| Connection.Chain.EndConnect | packages/chain/papi-chain/src/index.ts:154-156 | ... and from there: the client is cached, and the api of an `api()` that waited for it |
| Connection.Chain.GetClient | packages/chain/papi-chain/src/index.ts:148-191 | one whole call of `client()` |
| Connection.Chain.GetApi | packages/chain/papi-chain/src/index.ts:323-326 | one whole call of `api()`, with and without a client |
| Connection.Chain.OnStatusChanged | packages/chain/papi-chain/src/index.ts:166-170 | the guard in the status callback |
| Connection.Chain.Disconnect | packages/chain/papi-chain/src/index.ts:295-331 | one whole call of `disconnect()` |
| TickLoop.OneTickAtATime | packages/service/service-runtime/src/scheduler.ts:35-79 | at most one tick is active, and `running` holds exactly while `inFlight` is pending |
| TickLoop.FailureNeverBlocks | packages/service/service-runtime/src/scheduler.ts:42-58 | however a tick ends, the next firing begins one |
| TickLoop.UnhandledExactly | packages/service/service-runtime/src/scheduler.ts:22-27 | over every run: a tick's rejection goes unhandled if and only if its `onError` throws and no `stop` was called between its prefix and its end |
| TickLoop.ThrowingOnErrorIsUnhandled | packages/service/service-runtime/src/scheduler.ts:42-57 | a run in which it does, and one in which `stop` handles it |
| TickLoop.TickBeginsExactly | packages/service/service-runtime/src/scheduler.ts:50-67 | over every run: a tick begins if and only if a timer fires, or `start` finds no interval, while no tick is active and `stop` has not been called |
| TickLoop.IntervalIsSetExactly | packages/service/service-runtime/src/scheduler.ts:61-67 | over every run without `stop`: the interval is held and alive if and only if some `start` has returned, and its firing begins a tick whenever none is active |
| TickLoop.NothingStartsAfterStop | packages/service/service-runtime/src/scheduler.ts:50-77 | after `stop` no tick begins, even if `start` is called again |
| TickLoop.StopDrainsExactly | packages/service/service-runtime/src/scheduler.ts:68-77 | once a `stop` has resolved no tick is active, in whatever follows, if and only if it was not called from a tick's synchronous prefix |
| TickLoop.StopClearsExactly | packages/service/service-runtime/src/scheduler.ts:61-73 | over every run: `stop` leaves no interval behind if and only if no `start` stored its handle over another's |
| TickLoop.StartFromFirstTickLoses | packages/service/service-runtime/src/scheduler.ts:61-67 | a run in which the first tick calls `start` and an interval outlives `stop` |
| TickLoop.IntervalsReviveExactly | packages/service/service-runtime/src/scheduler.ts:61-73 | after a `stop` that cleared everything, until the next one: an interval is alive if and only if `start` was called again, or a `start` that was under way returned |
| TickLoop.Loop.StartLoop | packages/service/service-runtime/src/scheduler.ts:61-67 | `start`, up to the end of the first tick's prefix |
| TickLoop.Loop.StopLoop | packages/service/service-runtime/src/scheduler.ts:68-77 | `stop`, with the promise it awaits |
| CachedProbe.Probe.Check | packages/service/service-runtime/src/healthRoutes.ts:77-94 | one call of the probe |
| CachedProbe.StateIsHistory | packages/service/service-runtime/src/healthRoutes.ts:73-93 | over every run the checks begun and completed are those told from the events alone, healthy if and only if the promise resolved to `true`; at most one is outstanding |
| CachedProbe.CallsAreServed | packages/service/service-runtime/src/healthRoutes.ts:68-95 | what a call answers, told from that history: the last result if at most `ttlMs` old, else the outstanding check, else a check of its own |
| CachedProbe.ProbeCannotHammer | packages/service/service-runtime/src/healthRoutes.ts:58-95 | the k-th check starts more than (k-1)*`ttlMs` after the first |
| CachedProbe.InvocationsAreChecksExactly | packages/service/service-runtime/src/healthRoutes.ts:82-93 | over every run: every invocation is one of the spaced checks if and only if none throws before it returns a promise; otherwise there are more |
| CachedProbe.ThrowingCheckIsHammered | packages/service/service-runtime/src/healthRoutes.ts:58-93 | a check that throws before it returns a promise is invoked by every call of a burst |
| Retry.WithRetry | packages/chain/chain-errors/src/index.ts:128-149 | the loop: outcome, hook calls, sleeps, and the progress marker it leaves |
| Retry.RetryRunIsUnique | packages/chain/chain-errors/src/index.ts:124-149 | the stated facts fix the whole run |
| Retry.TotalSleep | packages/chain/chain-errors/src/index.ts:98-101 | the sleeps before attempt k add up to base * (2^k - 1) |
| Retry.BackoffIsBounded | packages/chain/chain-errors/src/index.ts:103-110 | no sleep exceeds `maxBackoffDelayMs` |
| Retry.RetryingReadsAlive | packages/service/service-runtime/src/healthRoutes.ts:44-49 | with a window above longest attempt plus longest sleep every probe of every run reports alive |
| Retry.LivenessWindowExactly | packages/service/service-runtime/src/healthRoutes.ts:6-13 | the windows that suffice are exactly those |
| Retry.ProbesExactly | packages/service/service-runtime/src/healthRoutes.ts:44-55 | over all calls of the monitor: alive if and only if some signal, completed work included, lies in the window, or registration does and there was none; ready if and only if the last recorded status is healthy or degraded; the last completion is that record's |
| Retry.SignedAttemptsExactly | packages/chain/papi-chain/src/index.ts:215-234 | `submitSigned` under `withRetry`: a submission is made if and only if every one before it timed out or failed transiently, so nothing finalized is submitted again |
| EntityCaches.ReadsAgreeWithStore | packages/indexer/squid-common/src/entityCache.ts:81-99 | reads answer as an uncached store would, for instances not assigned to since they were read or written |
| EntityCaches.RowsAreWhatWasWritten | packages/indexer/squid-common/src/entityCache.ts:106-129 | after every run the row of every key is the initial one, or what the last instance written held then, or none after a remove |
| EntityCaches.ReadsAnswerHistory | packages/indexer/squid-common/src/entityCache.ts:81-87 | after every run a read gives the instance last read or written with the data it holds, else a new one with the row's data, else nothing |
| EntityCaches.CachedIsLastTouched | packages/indexer/squid-common/src/entityCache.ts:20-25 | every cached entry is the instance last read or written by id, the store has its row, and nothing else is cached |
| EntityCaches.FailuresAndClassesAreIsolated | packages/indexer/squid-common/src/entityCache.ts:56-129 | a refused write changes nothing; classes never interfere |
| EntityCaches.AssignmentPartsCacheAndStore | packages/indexer/squid-common/src/entityCache.ts:13-17 | after an assignment a read agrees with the row if and only if the assigned data is the row's |
| EntityCaches.EntityCache.GetEntity | packages/indexer/squid-common/src/entityCache.ts:81-87 | `get` |
| EntityCaches.EntityCache.GetOrFail | packages/indexer/squid-common/src/entityCache.ts:88-99 | `getOrFail` fails exactly where `get` finds nothing |
| EntityCaches.EntityCache.WriteEntities | packages/indexer/squid-common/src/entityCache.ts:106-123 | `insert`, `upsert` and `save` |
| EntityCaches.EntityCache.RemoveEntities | packages/indexer/squid-common/src/entityCache.ts:124-129 | `remove` |
| Accounts.AccountHelpers.GetOrCreateAccount | packages/indexer/squid-common/src/account.ts:77-102 | one call, on objects: the cached instance is updated in place and written; every other account keeps its object and value |
| Accounts.BatchRecords | packages/indexer/squid-common/src/account.ts:66-102 | after any calls of a batch: the first block recorded, the maximum of all blocks seen, the row equal to the cached instance, other rows untouched |
| Accounts.BatchRowExactly | packages/indexer/squid-common/src/account.ts:84-98 | the row of an account seen is the only one with these facts |
| Accounts.ReplayIsIdempotent | packages/indexer/squid-common/src/account.ts:61-102 | replaying a batch in a fresh context after any number of its calls gives the store of one whole run |
| Accounts.LastIsOrderFree | packages/indexer/squid-common/src/account.ts:96-98 | the latest block does not depend on the order of the calls |
| Router.EventRouter.ProcessEvents | packages/indexer/squid-common/src/router.ts:142-190 | the two loops, stopping at the first throw |
| Router.BatchIsFilterMap | packages/indexer/squid-common/src/router.ts:142-190 | a batch is its recognised events in order, each with its block's one state, drift reported in place; all of them, unless one of six named throws cuts it short, each at its place |
| Router.BatchFailsAtOnce | packages/indexer/squid-common/src/router.ts:142-190 | a batch is rejected if and only if something in it threw, and nothing happens after that |
| Router.ThrowsAreNoticed | packages/indexer/squid-common/src/router.ts:142-190 | a batch is rejected if and only if one of the consumer's calls made during it threw, a recognised event had no handler, or an unhandled one no record |
| Router.RouterIsAccounted | packages/indexer/squid-common/src/router.ts:142-190 | over any batches the trace accounts for every call into the consumer's code in order, and writes down the outcome each handler really had |
| Router.RouterIsGood | packages/indexer/squid-common/src/router.ts:112-128 | over any batches the names logged as unhandled are the first `limit` distinct ones in order of appearance, and `onResult` sees exactly the non-null tracked results in order |
| Router.CallsAreDispatched | packages/indexer/squid-common/src/router.ts:130-140 | over any batches: each call goes to the event's override, or to the default handler of a subscribed name; no handler is found exactly for an `undefined` override or a name neither overridden nor subscribed |
| ChainCoords.ParseOfMake | packages/indexer/squid-common/src/chainCoord.ts:24-82 | an id parses back under its own suffix if and only if no component is negative |
| ChainCoords.OtherFamilyRefuses | packages/indexer/squid-common/src/chainCoord.ts:46-82 | under any other suffix it is refused, whatever the suffixes are |
| ChainCoords.MakeIsInjective | packages/indexer/squid-common/src/chainCoord.ts:24-27 | coordinate and suffix can be read off the id, minus signs included |
| ChainCoords.AcceptedExactly | packages/indexer/squid-common/src/chainCoord.ts:37-42 | exactly the ids of the documented shape are accepted, with the values of their digits |
| ChainCoords.MakeOfParse | packages/indexer/squid-common/src/chainCoord.ts:46-82 | making the id again strips leading zeros and nothing else |

## Left out

- Networks, workers, signing and database libraries: modelled as arbitrary sources of events, or as a table.
- Non-ASCII case mapping: `toLowerCase` of a whole field name is the ASCII one, and array holes and getters are not modelled.
- `out.__proto__ = ...`: the model drops the key; the prototype the output object gets instead is not represented.
- `formatTokenAmount` with a string value or with decimals that are not a natural number: conversion by `BigInt`, which throws there.
- `compact` of a JavaScript number that is not an integer, and `utf8` of non-ASCII text.
- ChainCoords.MakeOfParse: stated for indices up to the largest safe integer, because beyond it `Number` rounds.
- ChainCoords.ParseOfMake: stated for indices that are safe integers, because a larger number prints as the shortest digits that round to it, padded with zeros, and from 10^21 on with an exponent; neither is modelled.
- Amount.FormatTokenAmount: decimals are natural numbers, because the source's `10n ** BigInt(decimals)` throws otherwise.
- Retry.WithRetry: sleeps are exact and the backoff is computed on natural numbers, because timer drift and double overflow belong to the platform.
- Connection.Chain: a callback that calls the object again is a sequence of its `Begin` and `End` methods; which library call delivers callbacks, and when, is left to the event runs.
- EntityCaches.EntityCache: instances are identities with a table of field values, so aliasing of nested fields is not captured; `find`, `findOne`, `count` and `flush` only delegate.
- Overlapping asynchronous calls on the entity cache or the account helper: their callers await one call after another.
- `withTimeout`, `read`, log-level filtering and base/child merging of the logger, `parseTokenAmountErrorMessage`: one branch or one merge each.
- Spreads.DocumentIsSelfContained: for texts that do not end in a block string or between dots and a name, because such a text runs into the next one; GraphQL beyond names, strings, comments and dots is not parsed.
- Router: the logger's own `info` and `error` never throw.
- The order in which fragments are appended: the documentation promises none.
