# eventsguard core, modelled in Dafny

This project models the core of eventsguard, a Go service that stores users, clients and their events. It also delivers in-process signals between its modules. The model covers:

- **The delayed-signal bus.**
  - The bus maps topic patterns to ordered callback lists and keeps a FIFO queue of pending events.
  - `Subscribe` and `AfterTransaction` feed it. `Emit` dispatches at once and stops at the first error. `ProcessQueue` drains the queue.
  - `MatchTopic` is the wildcard matcher. It is modelled as a compiler from a pattern to pieces plus a matcher over those pieces.
  - Go's unspecified map iteration order is a ghost ordering of the pattern set, which the methods pick freely.
  - The request middleware flushes the queue after every handler. A handler is modelled by the bus requests it makes, in order: events it queues with `AfterTransaction` and events it emits at once with `Emit`.
  - The user service enqueues `user:updated` and the client service emits `client:updated`.
  - The authentication module subscribes two listeners to `user:updated`.
- **Migration sequencing.** `runMigrate` runs forward up to a target version and `runUnmigrate` runs backward down to just above it. showmigrations lists what is applied. The migration log lives in a class holding the set of applied versions. Up, Down and every log call may fail, as decided by a fault oracle.
- **Identifiers.** An identifier is the hexadecimal text of a 12-byte ObjectID. The model covers its BSON encoding and decoding.
- **Tokens.**
  - The token service decides between reusing a key and generating a new one. It also computes expiry and checks for it.
  - The token store is a class over an abstract key/value state with a fault oracle and a log of calls. The oracle is also asked about the single Redis commands whose failure shows on its own: the GET of a token key (whose error the program drops) and the HSET after a token is stored.
  - The bearer-token middleware is a decision chain ending in pass-through, 401 or 403.
- **MongoDB repositories.** The model covers their pure parts:
  - identifier checks and email lower-casing;
  - the duplicate-key message mapping;
  - pagination arithmetic in 64-bit two's complement;
  - search filters and the `$set` documents of partial updates.

  The database is a set of function parameters.
- **Errors.** This covers the application-error constructors and their codes, the translation of codes into the HTTP errors sent to clients, and the set of valid token devices.

The clock, UUID and ObjectID generation, the caller's context user and every store are parameters of the model. Instants are integer nanoseconds.

In a few places the code does something other than its names suggest. The model follows the code in each case:

- A `#` in a topic pattern matches only a literal `#`. Go's `regexp.QuoteMeta` does not escape `#`, so the rewrite at internal/infrastructure/signals/delayed_signals.go:141 applies only to a backslash followed by `#` in the pattern. It turns that pair into "zero or more dots" (`TopicMatch.EscapedHashMatchesDots`, `TopicMatch.HashIsLiteral`).
- `GetByEmail` lower-cases the queried email, but `Create` stores the email as given. A user created with a mixed-case email is never found by it (`UserRepository.MixedCaseEmailNotFound`).
- The event listing's count error reads "Error counting clients". The event listing has no limit-only branch and does not check the cursor's final error. The event type in its query is not used.
- The token-deletion service ignores the list of devices it is given and checks only whether that list is nil. When the list is present, it deletes only the token of the one valid device, "api".
- A renewed token's new expiry uses the configured duration, not the token's own `Expiracy`.
- A reloaded token takes its user identifier from the payload's username.
- Deleting a token by key (logout, internal/auth/domain/usecases/logout.go:27) removes the token but not its user's device entry: `HDel` at internal/auth/adapters/spi/repositories/redis/token.go:153 names the token key, while the entry's field is the device name (line 54). From then on, listing that user's tokens fails with "redis: nil" at lines 100-104 (`TokenStore.DeletedTokenBreaksListing`). Deleting a key that holds no token also fails with "redis: nil" (lines 134-138), so the deletion never answers `false`.
- The middleware rejects a `TokenAuth` scheme whose scope list is empty with 403 for every token.
- An event's `Type` is stored under the BSON key `code` (internal/events/domain/entities/event.go:15). The search filter matches the key `type` (internal/events/adapters/spi/repositories/mongodb/EventRepository.go:116), so a search never matches an event by its type; only the payload branch of the `$or` can match. The model builds the filter exactly as written.
- An event's `SendAt` carries the BSON key `created_at` (internal/events/domain/entities/event.go:20), the same key as `CreatedAt` on the line before. Encoding such a struct plausibly gives a duplicate key or loses one of the two instants. The model keeps both instants as separate fields. What the driver does with the duplicate `created_at` key is not modelled.

## Model

| member | source | states |
|---|---|---|
| AppErrors.NewNotFoundError | internal/app/errors/errors.go:24-29 | the error carries 404 and the given message |
| AppErrors.NewUnexpectedError | internal/app/errors/errors.go:31-36 | the error carries 500 and the given message |
| AppErrors.NewValidationError | internal/app/errors/errors.go:38-43 | the error carries 422 and the given message |
| AppErrors.NewDuplicatedError | internal/app/errors/errors.go:45-50 | the error carries 400 and the given message |
| AppErrors.NewPermissionDeniedError | internal/app/errors/errors.go:52-57 | the error carries 403 and the given message |
| AppErrors.NewAuthError | internal/app/errors/errors.go:59-64 | the error carries 401 and the given message |
| AppErrors.Error | internal/app/errors/errors.go:10-12 | the text of an error is its message alone |
| AppErrors.AsMessage | internal/app/errors/errors.go:14-18 | the copy keeps the message and has code 0 |
| AppErrors.GetStatus | internal/app/errors/errors.go:20-22 | the status is the error's code |
| AppErrors.AsMessageKeepsText | internal/app/errors/errors.go:10-18 | stripping the code is idempotent, keeps the text and leaves status 0 |
| AppErrors.ConstructorCodesDistinct | internal/app/errors/errors.go:24-64 | the six constructors give six different codes |
| ServerErrors.AppErrorToHumaError | internal/infrastructure/server/server_errors/errors.go:11-40 | the message is kept; the eight listed statuses (404, 400, 401, 403, 406, 409, 412, 422) pass through and every other code, 500 included, becomes 500 |
| ServerErrors.TranslationIdempotent | internal/infrastructure/server/server_errors/errors.go:17-36 | translating the translated status again changes nothing |
| ServerErrors.TranslationStatusRange | internal/infrastructure/server/server_errors/errors.go:17-36 | the client always receives one of the eight pass-through statuses or 500 |
| ServerErrors.ConstructorsReachClientUnchanged | internal/infrastructure/server/server_errors/errors.go:17-36 | every constructor's error reaches the client with its own code and message |
| ServerErrors.AsMessageBecomesInternal | internal/infrastructure/server/server_errors/errors.go:34-36 | an error stripped to its message is reported as 500 |
| TokenDevice.TokenDeviceValues | internal/auth/constants/token-device.go:9-11 | the device list is exactly ["api"] |
| TokenDevice.IsValidTokenDevice | internal/auth/constants/token-device.go:13-20 | a device is valid iff it is "api" |
| TokenDevice.ValuesAreExactlyTheValidDevices | internal/auth/constants/token-device.go:6-20 | a device is valid iff it is in the device list |
| TopicMatch.RegexIsCompile | internal/infrastructure/signals/delayed_signals.go:139-141 | quoting and then the two rewrites produce exactly the regular expression of the compiled pieces |
| TopicMatch.MatchTopicIsCompiled | internal/infrastructure/signals/delayed_signals.go:137-145 | the match is the anchored match of the compiled pieces against the whole topic |
| TopicMatch.MatchIff | internal/infrastructure/signals/delayed_signals.go:137-145 | a topic matches iff it splits into one part per piece: a literal character is itself, `*` is a non-empty run without `/`, and an escaped `#` is a run of dots |
| TopicMatch.MatchTopic | internal/infrastructure/signals/delayed_signals.go:137-145 | the matcher itself: quote the pattern, rewrite escaped `*` and escaped `#`, anchor it and match the whole topic; what it accepts is stated by MatchTopicIsCompiled and MatchIff |
| TopicMatch.LiteralsMatchExactly | internal/infrastructure/signals/delayed_signals.go:139-145 | literal pieces match one string only, their own characters |
| TopicMatch.ExactMatchWithoutWildcards | internal/infrastructure/signals/delayed_signals.go:137-145 | a pattern with no `*` and no backslash-`#` pair matches a topic iff the two are equal |
| TopicMatch.SingleStar | internal/infrastructure/signals/delayed_signals.go:140 | a pattern "pre*post" with literal parts matches exactly the topics that start with pre, end with post and have a non-empty run without `/` in between |
| TopicMatch.EscapedHashMatchesDots | internal/infrastructure/signals/delayed_signals.go:141 | a backslash followed by `#` matches any run of dots, including the empty one |
| TopicMatch.StarCrossesColon | internal/infrastructure/signals/delayed_signals.go:140 | "user:*" and "*" both match "user:updated" |
| TopicMatch.StarNeedsSegment | internal/infrastructure/signals/delayed_signals.go:140 | "user:*" matches neither "user:" nor "user:a/b" nor "client:updated" |
| TopicMatch.StarExample | internal/infrastructure/signals/delayed_signals.go:140 | "pre*" with a literal prefix matches exactly the prefix followed by a non-empty run without `/` |
| TopicMatch.HashIsLiteral | internal/infrastructure/signals/delayed_signals.go:139-141 | "user:#" matches "user:#" and not "user:updated" |
| Signals.Bus.constructor | internal/infrastructure/signals/delayed_signals.go:37-46 | a new bus has no subscriptions, an empty queue and an empty trace |
| Signals.Bus.Subscribe | internal/infrastructure/signals/delayed_signals.go:37-46 | the callback is appended to its pattern's list and the list is created when absent; other patterns, the queue and the trace are unchanged |
| Signals.Bus.AfterTransaction | internal/infrastructure/signals/delayed_signals.go:49-66 | with a matching pattern, exactly (topic, args) is appended and no error is returned; without one, the error message is returned and the queue is unchanged; no callback runs |
| Signals.Bus.HasMatchingSubscription | internal/infrastructure/signals/delayed_signals.go:127-134 | true iff some subscribed pattern matches the topic, whatever the iteration order |
| Signals.Bus.RunCallbacks | internal/infrastructure/signals/delayed_signals.go:113-121 | one pattern's callbacks run in list order until the first error, as RunList says |
| Signals.RunList | internal/infrastructure/signals/delayed_signals.go:113-121 | the calls of one pattern's list in list order, ending with the first callback that fails, and that error; RunListStopsAtError states the stop |
| Signals.Dispatch | internal/infrastructure/signals/delayed_signals.go:108-124 | the patterns in the given order, each matching one running its list, until the first error; DispatchSnoc, DispatchStopsAtError and the laws module state its meaning |
| Signals.Drain | internal/infrastructure/signals/delayed_signals.go:77-105 | the queued events front to back, each dispatched in its own order, errors only interrupting that event's dispatch |
| Signals.Bus.ExecuteCallbacks | internal/infrastructure/signals/delayed_signals.go:108-124 | for some iteration order of the patterns, the calls and the error are those of Dispatch |
| Signals.Bus.Emit | internal/infrastructure/signals/delayed_signals.go:69-74 | the queue and subscriptions are unchanged; the calls and the error are Dispatch's for some order |
| Signals.Bus.ProcessQueue | internal/infrastructure/signals/delayed_signals.go:77-105 | no error, an empty queue afterwards, and the calls are the front-to-back Drain of the old queue |
| Signals.DispatchSnoc | internal/infrastructure/signals/delayed_signals.go:111-123 | dispatching one more pattern appends that pattern's calls unless an error has already happened |
| Signals.DispatchStopsAtError | internal/infrastructure/signals/delayed_signals.go:117-119 | once an error has occurred, further patterns add no calls |
| Signals.RunListStopsAtError | internal/infrastructure/signals/delayed_signals.go:117-119 | no callback after the failing one runs |
| Signals.RangeOrder | internal/infrastructure/signals/delayed_signals.go:111 | the `range` over the subscription map visits every pattern exactly once, in some order |
| Signals.IsOrderingMeans | internal/infrastructure/signals/delayed_signals.go:111 | an iteration order holds each pattern once and no other |
| SignalLaws.RunListShape | internal/infrastructure/signals/delayed_signals.go:113-121 | a pattern's calls are a prefix of its list, in list order, each with the same args; if one call fails it is the last |
| SignalLaws.DispatchSound | internal/infrastructure/signals/delayed_signals.go:111-123 | every call comes from a pattern matching the topic, is one of its callbacks and carries the event's args |
| SignalLaws.DispatchKeepsSubscriptionOrder | internal/infrastructure/signals/delayed_signals.go:113-121 | within one pattern, callbacks run in subscription order |
| SignalLaws.DispatchComplete | internal/infrastructure/signals/delayed_signals.go:108-124 | without an error, every callback of every matching pattern runs |
| SignalLaws.DispatchSucceedsIffAllSucceed | internal/infrastructure/signals/delayed_signals.go:108-124 | dispatch succeeds iff every callback of every matching pattern succeeds, whatever the order |
| SignalLaws.DispatchRunsEachOnce | internal/infrastructure/signals/delayed_signals.go:111-123 | without an error, each (pattern, position) runs exactly once |
| SignalLaws.DispatchRunsSomethingIffMatch | internal/infrastructure/signals/delayed_signals.go:108-134 | when no callback list is empty, some callback runs iff some pattern matches, and with no match there is no error |
| SignalLaws.DrainPrefix | internal/infrastructure/signals/delayed_signals.go:83-102 | draining a longer queue extends the calls of the shorter one |
| SignalLaws.EventDispatchedInTurn | internal/infrastructure/signals/delayed_signals.go:90-101 | the i-th queued event is dispatched in turn after all earlier ones, whatever errors they had |
| SignalLaws.DrainSound | internal/infrastructure/signals/delayed_signals.go:83-102 | every call of a drain comes from some queued event and a pattern matching it |
| SignalsMiddleware.Queued | internal/core/domain/services/user.go:68 | the events the handler passes to AfterTransaction, in request order, at most one per request |
| SignalsMiddleware.Emitted | internal/core/domain/services/client.go:66 | the events the handler passes to Emit, in request order, at most one per request |
| SignalsMiddleware.RequestsSplit | internal/infrastructure/server/middlewares/signals.go:21 | every request is either queued or emitted: the two lists together hold exactly the requested events and as many as there are requests |
| SignalsMiddleware.Accepted | internal/infrastructure/signals/delayed_signals.go:49-66 | the events a handler's requests leave queued are the matching ones, at most as many as were requested |
| SignalsMiddleware.AcceptedFilters | internal/infrastructure/signals/delayed_signals.go:54-65 | an event is queued iff it was requested and some pattern matches its topic |
| SignalsMiddleware.AcceptedAll | internal/infrastructure/signals/delayed_signals.go:54-65 | when every requested topic matches, all requests are queued in order |
| SignalsMiddleware.RunHandler | internal/infrastructure/server/middlewares/signals.go:21 | the handler's requests in turn: the queue gains exactly the accepted queued events, the trace gains the dispatch of each emitted event in request order, every dispatch uses some iteration order of the patterns, and the outcome is the handler's |
| SignalsMiddleware.ServeWithSignals | internal/infrastructure/server/middlewares/signals.go:10-23 | the handler runs first, then exactly one flush, even on abnormal exit; the outcome is the handler's, the subscriptions are unchanged, the queue ends empty, and the calls are the handler's immediate dispatches followed by the Drain of the earlier queue plus the accepted queued events |
| SignalsMiddleware.HandlerEventsFlushed | internal/infrastructure/server/middlewares/signals.go:16-21 | each event the handler queued is dispatched during that request's flush |
| AuthUserSignals.SubscribeUserUpdated | internal/auth/adapters/api/signals/user.go:10-24 | both listeners are appended to "user:updated", first then second |
| AuthUserSignals.SubscribedListenersAlone | internal/auth/adapters/api/signals/user.go:10-24 | on a bus without a "user:updated" list, subscribing gives that topic exactly [first, second] and keeps every other pattern |
| AuthUserSignals.DispatchOneMatch | internal/infrastructure/signals/delayed_signals.go:108-124 | when only one pattern can match the topic, the dispatch in any iteration order is that pattern's list, or nothing |
| AuthUserSignals.BothListenersRunInOrder | internal/auth/adapters/api/signals/user.go:13-21 | on any bus where "user:updated" holds exactly the two listeners and no other pattern matches it, a "user:updated" dispatch runs the first listener, then the second, in every iteration order |
| AuthUserSignals.WorkerPatternIgnoresUserUpdated | internal/infrastructure/server/worker.go:28 | the worker's pattern "usuari:creat" does not match "user:updated", so it does not disturb that dispatch |
| Ids.HexDigit | internal/utils/entities/id.go:40-45 | the digit of a nibble decodes back to that nibble |
| Ids.DecodeHex | internal/utils/entities/id.go:23-29 | decoding succeeds iff every character is a hex digit, and then gives half as many bytes |
| Ids.ObjectIdFromHex | internal/utils/entities/id.go:23-29 | a parse succeeds iff the text is 24 hex digits, and then gives 12 bytes |
| Ids.Hex | internal/utils/entities/id.go:40-45 | two lowercase digits per byte |
| Ids.String | internal/utils/entities/id.go:18-20 | the text is the identifier's own string |
| Ids.MarshalBSONValue | internal/utils/entities/id.go:22-30 | an invalid identifier gives null, no data and an error; a valid one gives an ObjectID with its 12 bytes |
| Ids.ObjectIdBytes | internal/utils/entities/id.go:40-44 | the first 12 data bytes, zero-filled when shorter |
| Ids.IdRef.constructor | internal/utils/entities/id.go:33-46 | the place holds the given identifier |
| Ids.IdRef.UnmarshalBSONValue | internal/utils/entities/id.go:33-46 | a non-ObjectID type is an error and the identifier is unchanged; an ObjectID sets it to the lowercase hex of its bytes |
| Ids.LowerHex | internal/utils/entities/id.go:22-45 | re-encoding decoded digits keeps the length |
| Ids.DigitRoundTrip | internal/utils/entities/id.go:22-45 | decoding a digit and encoding it again gives the lowercase digit |
| Ids.PairRoundTrip | internal/utils/entities/id.go:22-45 | a decoded byte encodes back to its two lowercase digits |
| Ids.HexAppend | internal/utils/entities/id.go:40-45 | the encoding of a concatenation is the concatenation of the encodings |
| Ids.LowerHexPair | internal/utils/entities/id.go:22-45 | the lowercase re-encoding works two digits at a time |
| Ids.HexOfDecode | internal/utils/entities/id.go:22-45 | encoding what was decoded gives the text back, lower-cased |
| Ids.DecodeOfHex | internal/utils/entities/id.go:22-45 | decoding the encoding of some bytes gives them back |
| Ids.LowerHexOfLowercase | internal/utils/entities/id.go:22-45 | lowercase text is its own re-encoding |
| Ids.MarshalUnmarshal | internal/utils/entities/id.go:22-45 | storing a valid identifier and reading it back gives its lowercase spelling |
| Ids.MarshalUnmarshalLowercase | internal/utils/entities/id.go:22-45 | the round trip is exact for lowercase 24-digit identifiers |
| Ids.UnmarshalMarshal | internal/utils/entities/id.go:22-45 | a decoded identifier is valid lowercase text that stores as the same 12 bytes |
| RepoCommon.Wrap64 | internal/core/adapters/spi/repositories/mongodb/user.go:115 | the value is congruent to the input modulo 2^64 and equal to it when it is in int64 range |
| RepoCommon.PagedOrLimited | internal/core/adapters/spi/repositories/mongodb/user.go:111-119 | page and size both positive give limit = size and skip = (page-1)·size wrapped to int64; only size positive gives a limit alone; otherwise neither |
| RepoCommon.PagedOnly | internal/events/adapters/spi/repositories/mongodb/EventRepository.go:105-110 | limit and skip only when page and size are both positive |
| RepoCommon.PagesTile | internal/core/adapters/spi/repositories/mongodb/user.go:111-115 | without overflow, page 1 skips nothing and each page starts where the previous one ended |
| RepoCommon.SkipWraps | internal/core/adapters/spi/repositories/mongodb/user.go:115 | a large page number wraps to a negative skip |
| RepoCommon.SearchConditions | internal/core/adapters/spi/repositories/mongodb/user.go:120-129 | a non-empty search gives one case-insensitive condition per field, in order; otherwise none |
| RepoCommon.ContainsOccurs | internal/core/adapters/spi/repositories/mongodb/user.go:84-88 | the substring test agrees with "occurs at some index" |
| RepoCommon.InsertMessage | internal/core/adapters/spi/repositories/mongodb/user.go:84-88 | an insert error containing the duplicate-key text becomes the friendly message; any other keeps its own text |
| RepoCommon.FindById | internal/core/adapters/spi/repositories/mongodb/user.go:32-53 | a malformed identifier is a validation error before the query; otherwise found, not found and failure map to their results |
| RepoCommon.Values | internal/core/adapters/spi/repositories/mongodb/user.go:140-150 | the decoded documents, in order |
| RepoCommon.ListedAsUnique | internal/core/adapters/spi/repositories/mongodb/user.go:131-157 | the listing specification determines one result |
| RepoCommon.ListDocuments | internal/core/adapters/spi/repositories/mongodb/user.go:131-157 | count, find, decode and cursor errors map to their messages, else the documents and the total |
| UserRepository.GetByID | internal/core/adapters/spi/repositories/mongodb/user.go:32-53 | invalid identifier is a validation error; the result is Ok iff the store finds the document; otherwise "User not found with ID: " + id or "Error retrieving user" |
| UserRepository.ToLower | internal/core/adapters/spi/repositories/mongodb/user.go:56 | each ASCII capital letter is lowered, everything else kept |
| UserRepository.GetByEmail | internal/core/adapters/spi/repositories/mongodb/user.go:55-72 | the store is queried with the lower-cased email, and its answer maps to the result |
| UserRepository.ToLowerIdempotent | internal/core/adapters/spi/repositories/mongodb/user.go:56 | lower-casing twice is lower-casing once |
| UserRepository.GetByEmailIgnoresCase | internal/core/adapters/spi/repositories/mongodb/user.go:55-72 | emails differing only in case find the same user |
| UserRepository.GetByEmailOfLowered | internal/core/adapters/spi/repositories/mongodb/user.go:55-72 | looking up the lowered email is the same lookup |
| UserRepository.NewUser | internal/core/adapters/spi/repositories/mongodb/user.go:74-83 | the document exists iff hashing succeeded; it has the fresh identifier, the hash, no admin right and no clients |
| UserRepository.Create | internal/core/adapters/spi/repositories/mongodb/user.go:74-98 | a hashing failure, a duplicate key, another insert error and a failed read-back each give their message; else the document read back |
| UserRepository.MixedCaseEmailNotFound | internal/core/adapters/spi/repositories/mongodb/user.go:55-98 | with a store that answers only for the email a user was created with, that user is found by its own email iff the email has no upper-case letter; otherwise the answer is "User  not found" |
| UserRepository.List | internal/core/adapters/spi/repositories/mongodb/user.go:109-163 | the listing with the name/email search and paging-or-limit options |
| UserRepository.SetsSomething | internal/core/adapters/spi/repositories/mongodb/user.go:179-200 | the update is empty iff nothing was supplied |
| UserRepository.UpdateFields | internal/core/adapters/spi/repositories/mongodb/user.go:179-195 | the "$set" document holds exactly the supplied fields with their values |
| UserRepository.UpdatePartialUser | internal/core/adapters/spi/repositories/mongodb/user.go:165-222 | nothing supplied, then an invalid identifier, are refused before any update; otherwise exactly the supplied fields are sent and the user read back, or "Error updating user" |
| ClientRepository.GetByID | internal/core/adapters/spi/repositories/mongodb/client.go:33-61 | invalid identifier is a validation error; Ok iff found; otherwise "Client not found with ID: " + id or "Error retrieving client" |
| ClientRepository.Create | internal/core/adapters/spi/repositories/mongodb/client.go:64-89 | a duplicate key, another insert error and a failed read-back give their messages; else the client read back |
| ClientRepository.List | internal/core/adapters/spi/repositories/mongodb/client.go:101-151 | the listing with the code/name search and paging-or-limit options |
| ClientRepository.SetsSomething | internal/core/adapters/spi/repositories/mongodb/client.go:171-182 | the update is empty iff nothing was supplied |
| ClientRepository.UpdateFields | internal/core/adapters/spi/repositories/mongodb/client.go:171-178 | the "$set" document holds exactly the supplied fields with their values |
| ClientRepository.UpdatePartialClient | internal/core/adapters/spi/repositories/mongodb/client.go:156-200 | nothing supplied, then an invalid identifier, are refused first; otherwise the supplied fields are sent and the client read back, or "Error updating client" |
| EventRepository.GetByID | internal/events/adapters/spi/repositories/mongodb/EventRepository.go:35-60 | the query is on the ObjectID and the client; invalid identifier, found, not found and failure map to their results |
| EventRepository.GetByIDScopedToClient | internal/events/adapters/spi/repositories/mongodb/EventRepository.go:35-60 | an event of another client is never returned |
| EventRepository.NewEvent | internal/events/adapters/spi/repositories/mongodb/EventRepository.go:64-77 | the new event belongs to the given client, with the fresh identifier, the creation time and no retries |
| EventRepository.Create | internal/events/adapters/spi/repositories/mongodb/EventRepository.go:64-91 | a duplicate key, another insert error and a failed read-back give their messages; else the event read back |
| EventRepository.CreateIgnoresInputClient | internal/events/adapters/spi/repositories/mongodb/EventRepository.go:64-77 | the client named in the input does not affect the event inserted |
| EventRepository.ListFilter | internal/events/adapters/spi/repositories/mongodb/EventRepository.go:113-118 | the filter always names the client; a search adds conditions on type and payload |
| EventRepository.List | internal/events/adapters/spi/repositories/mongodb/EventRepository.go:103-147 | the listing with the client filter, paging only and no cursor check |
| UserService.OrdinaryUserUpdatesOnlySelf | internal/core/domain/services/user.go:58-65 | a non-admin user may update exactly their own record |
| UserService.MayUpdate | internal/core/domain/services/user.go:57-65 | an update is allowed without a caller in the context, for an administrator, and for a user on their own record; OrdinaryUserUpdatesOnlySelf states the restriction |
| UserService.UpdatePartialUser | internal/core/domain/services/user.go:53-71 | a forbidden update is refused without a repository call; otherwise the repository result is returned and "user:updated" is queued only on success |
| ClientService.UpdatePartialClient | internal/core/domain/services/client.go:51-69 | the repository result is returned unchanged; "client:updated" is emitted at once only on success, and the queue is untouched |
| TokenStore.TokensOfUser | internal/auth/adapters/spi/repositories/redis/token.go:94-113 | a device is listed iff it is a valid device and the user's entry for it leads to a stored token, and the token listed is that one; entries for invalid devices are skipped |
| TokenStore.UserTokensOkIff | internal/auth/adapters/spi/repositories/redis/token.go:94-116 | listing the user's tokens succeeds iff every valid device entry still leads to a stored token; otherwise it fails with "redis: nil" |
| TokenStore.DeletedTokenBreaksListing | internal/auth/adapters/spi/repositories/redis/token.go:38-159 | after a token is saved for a valid device and then deleted by key, its device entry remains and listing the user's tokens fails with "redis: nil" |
| TokenStore.SavedIsFound | internal/auth/adapters/spi/repositories/redis/token.go:38-60 | a saved token is found by its key and by its user and device |
| TokenStore.HalfSavedIsFoundByKeyOnly | internal/auth/adapters/spi/repositories/redis/token.go:48-58 | after the SET alone the token is found by its key while every user's device index is unchanged |
| TokenStore.SaveKeepsOtherKeys | internal/auth/adapters/spi/repositories/redis/token.go:38-60 | saving leaves every other key as it was |
| TokenStore.DeleteRemovesOnlyThatKey | internal/auth/adapters/spi/repositories/redis/token.go:133-159 | a deleted key is gone and no other key changes |
| TokenStore.WithoutUserLeavesNone | internal/auth/adapters/spi/repositories/redis/token.go:161-183 | after deleting a user's tokens none of them is found, and listing them succeeds with nothing |
| TokenStore.TokenRepository.constructor | internal/auth/adapters/spi/repositories/redis/token.go:25-32 | the store starts with the given state and an empty log |
| TokenStore.TokenRepository.Answer | internal/auth/domain/ports/repositories/token.go:10-17 | a call fails iff the fault oracle says so, with its error; otherwise it returns the value |
| TokenStore.TokenRepository.Save | internal/auth/adapters/spi/repositories/redis/token.go:38-60 | the call is logged; a failed SET changes nothing; a failed HSET leaves the token stored under its key without its device entry and returns that error; on success the record is stored under its key and its user's device |
| TokenStore.TokenRepository.FindByToken | internal/auth/adapters/spi/repositories/redis/token.go:62-84 | never an error: the token stored under the key, or none when nothing is stored or the GET fails, its error being dropped |
| TokenStore.TokenRepository.FindByUserID | internal/auth/adapters/spi/repositories/redis/token.go:86-117 | the index read's error; otherwise "redis: nil" when a valid device entry leads to no token, else the user's tokens for valid devices |
| TokenStore.TokenRepository.FindByUserIDAndDevice | internal/auth/adapters/spi/repositories/redis/token.go:119-131 | a failed index read is an error; otherwise the token the device entry names, or none when there is no entry, nothing is stored under it, or its GET fails |
| TokenStore.TokenRepository.DeleteByToken | internal/auth/adapters/spi/repositories/redis/token.go:133-159 | a key holding no token fails with "redis: nil" and changes nothing; otherwise the oracle's error, or true with the token removed and the field named by the key dropped from its user's index |
| TokenStore.TokenRepository.DeleteByUserID | internal/auth/adapters/spi/repositories/redis/token.go:161-183 | on success the user's tokens and index are removed |
| TokenService.UserPayload | internal/auth/domain/services/token.go:203-211 | the payload has the five user keys, and last_name is null iff the user has none |
| TokenService.DecodeUserPayload | internal/auth/domain/services/token.go:184-211 | decoding the payload of a user gives that user back |
| TokenService.FromRawToken | internal/auth/domain/services/token.go:184-197 | the user is decoded from the payload, the user identifier is its username, the other fields are copied and there is no refresh token |
| TokenService.KeyChoice | internal/auth/domain/services/token.go:57-65 | an existing token with renew set keeps its key and nothing is deleted; otherwise any existing token is deleted and the fresh key is used |
| TokenService.NewTokenRecord | internal/auth/domain/services/token.go:76-101 | the record saved for a new token: device, key, user payload, username as user id, creation now, and expiry now + duration only when expirable; NewTokenReadsBack states the read-back |
| TokenService.RenewedRecord | internal/auth/domain/services/token.go:138-161 | the record saved on renewal: everything kept except a fresh expiry, now + the configured duration, when the token has an expiracy; RenewedReadsBack states the read-back |
| TokenService.IsTokenExpired | internal/auth/domain/services/token.go:163-168 | a token is expired iff it has an expiry and the expiry is strictly before now; NewTokenExpiry and NewTokenNotExpiredAtOnce use it |
| TokenService.NewTokenReadsBack | internal/auth/domain/services/token.go:76-101 | the saved token reads back with the device, the key, the user, UserID = username, createdAt = now, and expiresAt = now + duration and expiracy = seconds iff expirable |
| TokenService.NewTokenExpiry | internal/auth/domain/services/token.go:76-83 | a new token is expired at a later instant iff it is expirable and its expiry lies strictly before that instant |
| TokenService.NewTokenNotExpiredAtOnce | internal/auth/domain/services/token.go:76-83 | a new token is not expired at its creation instant |
| TokenService.RenewedReadsBack | internal/auth/domain/services/token.go:138-161 | a renewed token keeps key, device, user, createdAt and expiracy, and gets a new expiresAt only when expiracy is set |
| TokenService.TokenService.constructor | internal/auth/domain/services/token.go:34 | the service holds its store and duration |
| TokenService.TokenService.FindByTokenKey | internal/auth/domain/services/token.go:104-113 | none when the store has no token under the key or its read fails; otherwise the stored token converted |
| TokenService.TokenService.DeleteByToken | internal/auth/domain/services/token.go:116-118 | the store's deletion of the key: "redis: nil" for a key holding no token, otherwise the store's answer |
| TokenService.TokenService.CreateByUser | internal/auth/domain/services/token.go:39-102 | an invalid device is refused before any lookup; a lookup error is returned; otherwise the chosen key is saved with the expiry rule (a failed HSET leaves the token stored and returns its error) and the result is the read-back of that key, which is none when its GET fails even after a successful save |
| TokenService.TokenService.DeleteByUserID | internal/auth/domain/services/token.go:120-136 | without a device list every token of the user is deleted; with one, only the "api" token is, and deletion errors are ignored |
| TokenService.TokenService.RenewToken | internal/auth/domain/services/token.go:138-161 | the renewed record is saved, with the store's SET and HSET outcomes |
| TokenService.TokenService.FindByUserID | internal/auth/domain/services/token.go:170-182 | a lookup error, including "redis: nil" for a device entry whose token is gone, is returned; otherwise each of the user's tokens is converted, by device |
| TokenMiddleware.NeededScopesIsFirst | internal/infrastructure/server/middlewares/token.go:21-27 | the scopes are those of the first requirement naming "TokenAuth" |
| TokenMiddleware.NeededScopesNone | internal/infrastructure/server/middlewares/token.go:21-32 | no scopes iff no requirement names "TokenAuth" |
| TokenMiddleware.ScanSecurity | internal/infrastructure/server/middlewares/token.go:21-27 | the scan finds the first "TokenAuth" requirement's scopes |
| TokenMiddleware.TokenKeyOfBearer | internal/infrastructure/server/middlewares/token.go:34 | a "Bearer " header gives the rest of it |
| TokenMiddleware.TokenKeyWithoutBearer | internal/infrastructure/server/middlewares/token.go:34 | any other header is the key itself |
| TokenMiddleware.PassThroughIff | internal/infrastructure/server/middlewares/token.go:29-32 | without "TokenAuth" the request passes on with no token in the context |
| TokenMiddleware.UnauthorizedIff | internal/infrastructure/server/middlewares/token.go:36-44 | an empty key, a lookup error or a missing token gives 401 "Unauthorized" |
| TokenMiddleware.ExpiredIff | internal/infrastructure/server/middlewares/token.go:46-49 | a found expired token gives 401 "Expired token" |
| TokenMiddleware.PassWithTokenIff | internal/infrastructure/server/middlewares/token.go:51-56 | the request passes with the token iff it is found, unexpired and its device is a needed scope |
| TokenMiddleware.ForbiddenIff | internal/infrastructure/server/middlewares/token.go:58 | every other case gives 403 "Forbidden" |
| TokenMiddleware.OutcomesAreListed | internal/infrastructure/server/middlewares/token.go:14-60 | the decision is one of pass-through, pass with the token, 401 or 403 |
| TokenMiddleware.Decide | internal/infrastructure/server/middlewares/token.go:14-60 | the middleware's decision chain, from no scheme to pass-through, through 401 for a missing key or token and for an expired one, to the device check; the Iff lemmas state each outcome's exact condition |
| TokenMiddleware.Authorize | internal/infrastructure/server/middlewares/token.go:14-60 | the decision is Decide's; the store is consulted only when the scheme is present and the key non-empty |
| Migrations.RegistryShape | internal/infrastructure/migrations/migrate.go:24-27 | the registry is "000" then "001", distinct, and the default target is "001" |
| Migrations.MessageEndsWithCause | internal/infrastructure/migrations/migrate.go:55-104 | the text of a failed check, Up, log insert, Down or log removal ends with ": " and that call's own error |
| Migrations.FirstIndex | internal/infrastructure/migrations/migrate.go:31-38 | the first index holding the version |
| Migrations.Reversed | internal/infrastructure/migrations/migrate.go:88 | the versions from last to first |
| Migrations.RunAdvance | internal/infrastructure/migrations/migrate.go:50-71 | running a sequence is one step followed by the rest |
| Migrations.Step | internal/infrastructure/migrations/migrate.go:50-109 | one version's turn: the check, then Up with the log insert going forward or Down with the log removal going backward, with every possible failure |
| Migrations.Run | internal/infrastructure/migrations/migrate.go:50-109 | the versions in turn until the first error; RunAdvance, RunSuccess, RunBounds and RunStopsAtError state its meaning |
| Migrations.RunSuccess | internal/infrastructure/migrations/migrate.go:50-74 | a successful forward run applies every version; a backward one removes every version |
| Migrations.RunBounds | internal/infrastructure/migrations/migrate.go:50-109 | applied versions change only within the visited ones |
| Migrations.RunTouchesOnly | internal/infrastructure/migrations/migrate.go:50-109 | no call is made for a version outside the visited ones |
| Migrations.RunCallsOnlyWhereNeeded | internal/infrastructure/migrations/migrate.go:55-68 | Up is called only for unapplied versions and Down only for applied ones |
| Migrations.RunStopsAtError | internal/infrastructure/migrations/migrate.go:61-63 | after an error, later versions are not attempted |
| Migrations.UpFailureIsNotLogged | internal/infrastructure/migrations/migrate.go:61-63 | the version whose Up failed is not logged |
| Migrations.RunKeepsOthers | internal/infrastructure/migrations/migrate.go:50-109 | a version not visited keeps its applied status |
| Migrations.MigrateTwiceCallsNoUp | internal/infrastructure/migrations/migrate.go:50-74 | a second run after a successful one calls no Up |
| Migrations.AppliedInOrder | internal/infrastructure/migrations/migrate.go:175-187 | the listed versions are exactly the applied registry versions |
| Migrations.AppliedRegistryOrder | internal/infrastructure/migrations/migrate.go:175-187 | the applied versions are listed in registry order |
| Migrations.MigrationDb.constructor | internal/infrastructure/migrations/migration_log.go:20-45 | the log starts with the given applied set |
| Migrations.MigrationDb.HasMigration | internal/infrastructure/migrations/migration_log.go:37-45 | whether the version is applied, or the lookup error |
| Migrations.MigrationDb.Up | internal/infrastructure/migrations/migrate.go:61 | the call is recorded and its outcome is the oracle's |
| Migrations.MigrationDb.Down | internal/infrastructure/migrations/migrate.go:99 | the call is recorded and its outcome is the oracle's |
| Migrations.MigrationDb.AddMigrationLog | internal/infrastructure/migrations/migration_log.go:20-28 | on success the version is added |
| Migrations.MigrationDb.RemoveMigrationLog | internal/infrastructure/migrations/migration_log.go:30-35 | on success the version is removed |
| Migrations.MigrationDb.RunStep | internal/infrastructure/migrations/migrate.go:50-71 | one version's check, call and log update, as Step says |
| Migrations.FindMigrationIndex | internal/infrastructure/migrations/migrate.go:31-38 | the first index of the version, or -1 with "not found" |
| Migrations.RunMigrate | internal/infrastructure/migrations/migrate.go:42-75 | an unknown target fails before any call; otherwise the versions up to the target run in order, as Run says |
| Migrations.RunUnmigrate | internal/infrastructure/migrations/migrate.go:80-113 | an unknown target fails before any call; otherwise the versions above it run from the top down, as Run says |
| Migrations.ShowMigrations | internal/infrastructure/migrations/migrate.go:170-201 | the first lookup error is reported; else the applied versions in registry order |
| Migrations.MigrateLeavesHigherVersions | internal/infrastructure/migrations/migrate.go:50-74 | versions above the target keep their status |
| Migrations.UnmigrateLeavesTargetAndBelow | internal/infrastructure/migrations/migrate.go:88-109 | the target and every version below it keep their status |

## Left out

- Concurrency: the bus mutex and the goroutines are not modelled. Callbacks are pure functions of their arguments, so they cannot re-enter the bus.
- Logging and printing are not modelled. A logged callback error in `ProcessQueue` is a no-op, and `log.Fatalf` in showmigrations returns the error.
- The unused event channel of the bus is not modelled.
- MongoDB and Redis drivers: stores are parameters, or a state plus a fault oracle. Their query semantics (regex search, sorting, counting) are not modelled.
- Password hashing (bcrypt) and JWT are not modelled. Hashing is an optional hash passed in.
- JSON text: the token payload is a map of JSON values. `json.Marshal` cannot fail on these values, so its error branches (internal/auth/domain/services/token.go:69-72, 145-147) are not modelled.
- The clock, UUID generation and ObjectID generation are parameters.
- A handler's effects other than its bus requests (its repository calls, the response body) are not part of the middleware model; the handler is its list of requests, its response and whether it panics.
- The huma framework, the HTTP handlers, the CLI wiring and the data effects of each migration's Up and Down are not modelled.
- UserRepository.ToLower: lower-cases ASCII letters only, because Unicode case mapping is not modelled.
- TokenService.NewTokenReadsBack: the token duration is an unbounded integer of nanoseconds; the int64 overflow of a huge configured duration is not modelled.
- The service delegations (`CreateUser`, `GetUserByEmail`, `GetUserByID`, `ListUsers` and the client ones) are modelled as applications of the repository port, which carries no contract of its own.
- The "No valid fields provided for update" checks (internal/core/adapters/spi/repositories/mongodb/user.go:197-200 and client.go:180-182) never fire, because a supplied field always yields an entry. The model proves that instead of returning the message.
- `NewClient` and `NewEvent` cannot fail, so "Error creating client" and "Error creating event" after them are not modelled.
- The client repository port declares `GetByEmail`, but the MongoDB adapter has no such method. The service's `GetClientByEmail` is an application of the port function.
- The Redis key prefixes and the hash-versus-key layout are not modelled. The store state is a token map and a per-user device index.
- TokenStore.TokenRepository.DeleteByToken: a failure is all or nothing, decided by one oracle answer per call. The source's `Del` can succeed before its `HDel` fails (internal/auth/adapters/spi/repositories/redis/token.go:147-156), which leaves the token gone and an error returned. The JSON decoding error of line 141 is one of the oracle's answers.
- TokenStore.TokenRepository.FindByUserID: one oracle answer stands for the `HGetAll` and the per-device `GET` failures. A stored token that does not decode is not modelled, so the decoding error of lines 106-110 is not modelled either.
- TokenStore.TokenRepository.FindByToken: stored tokens are typed values, so the JSON decoding error of internal/auth/adapters/spi/repositories/redis/token.go:74-77 cannot arise; in the model the lookup never fails. The same holds for the token read in `FindByUserIDAndDevice`.
- TokenStore.TokenRepository.DeleteByUserID: a failure is all or nothing. The source deletes the user's token keys one by one in map order (internal/auth/adapters/spi/repositories/redis/token.go:168-174), so a `Del` that fails partway leaves some tokens deleted, the rest and the index in place, and an error returned. The model keeps the whole state on failure.
- The fault oracle's answer is fixed by the command and its arguments: a command that fails once fails every time it is repeated with the same arguments, for example the GET of one key.
- Text encoding: Go strings are UTF-8 byte sequences, while the model's strings are sequences of Unicode characters. `QuoteMeta` and `MatchTopic`, `TrimPrefix` on the bearer header, and the `$regex` search work on bytes in the source. The model treats each character as one unit, so it does not say what happens to invalid UTF-8 or to a multi-byte character split by a byte-level operation.
- The 5-second context timeout of `EventRepository.GetByID` (internal/events/adapters/spi/repositories/mongodb/EventRepository.go:36) is not modelled. A timed-out query surfaces as one of the store's failure answers.
