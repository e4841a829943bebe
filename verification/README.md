# Memoizer model

A Dafny model of the memoization stage of an MNIST classification pipeline.
The stage sits between a caller and two upstream services. The classifier
turns an image into a digit. The cache maps a CRC-64 key of the image bytes
to an earlier answer. For each request the memoizer asks the cache first.
On a usable hit it answers from the cache. Otherwise it forwards the request
to the classifier, turns each classifier failure into a `MemErr`, and stores
successful answers back in the cache. It remembers, in two sticky flags,
which upstream response channel it has seen closed. At shutdown it closes
the response channels it has not seen closed.

Files and modules:

- `gotypes.dfy` (`GoTypes`): nil-able values (`Option`), Go's 64-bit integers, byte payloads.
- `decimal.dfy` (`Decimal`): `%d` rendering of integers and its parser.
- `err.dfy` (`MemErrors`): the cause constants, `MemErr`, Go `error` values, `String`, `Error`, `CreateMemErr`, `GetErrCause`.
- `messages.dfy` (`Messages`): `MnistReq`, `MnistResp`, `CacheReq`, `CacheResp` and the zero values a closed channel yields.
- `memoizer.dfy` (`Memoizer`): one loop iteration as a pure `Step` over the two flags, with each blocking receive replaced by its scripted `Outcome` (`Closed` or `Reply`). Also one lemma per branch.
- `memoizer_run.dfy` (`MemoizerRun`): the fold of `Step` over the inbound requests (`Steps`), the shutdown closes, the whole event trace (`Run`), and the trace properties.
- `memoizer_loop.dfy` (`MemoizerLoop`): the loop written imperatively, as the Go function runs it, and proved equal to `Run`.
- `memoizer_cache.dfy` (`MemoizerCache`): end-to-end properties against a cache that answers from earlier stores and a deterministic classifier.

The trace records these kinds of event: cache lookups, cache stores,
classifier requests, responses to the caller, and the three closes at
shutdown.

Facts about the code that the model keeps:

- The description of a mismatched-id answer is `"Bad messageID from classifier"` (memoizer.go:44).
- The caller's response channel is closed by a `defer` (memoizer.go:8). A deferred call runs when the function returns, so that close comes after the closes at memoizer.go:59-64. `Shutdown` emits `CloseMemResp` last.
- A crash response carries the `Val` of a receive on a closed channel (memoizer.go:30, 34). That is Go's zero value, 0.
- After the classifier's channel is seen closed, the classifier is still asked for every request the cache cannot answer (memoizer.go:28-30 never reads `classgone`).

## Model

| member | source | states |
|---|---|---|
| MemErrors.DeclaredCausesAreIota | err.go:10-16 | The five declared causes are 0 through 4, in the order none, serErr, serCrash, serCorrupt, badArg, and they are the only declared ones. |
| MemErrors.CauseString | err.go:18-33 | The fallback name "MemErr_unknown" is produced exactly for values that are not a declared cause. |
| MemErrors.CauseStringRoundTrip | err.go:18-33 | Reading a name back gives the declared cause it names. Every undeclared value gets the one fallback name, which names no cause. |
| MemErrors.CauseStringInjectiveOnDeclared | err.go:18-33 | Two declared causes have the same name only if they are the same cause. |
| Decimal.IntToDecimalRoundTrip | err.go:59 | The `%d` rendering of any integer, negative ones included, parses back to that integer. |
| MemErrors.ErrorStringDeterminesCause | err.go:46-61 | Every cause, declared or not, can be recovered from the opening of the `Error` text, whatever the description. Undeclared causes are recovered from the printed number. |
| MemErrors.ErrorStringIgnoresWrappedUnlessSerErr | err.go:46-61 | For every cause except serErr, the `Error` text does not depend on the wrapped error. |
| MemErrors.ErrorStringEnclosesDescription | err.go:46-61 | Every `Error` text is exactly the cause's opening words (a fixed sentence per declared cause, `Unknown error <number>` otherwise), then the description in parentheses. Only for serErr do `": "` and the wrapped error's own text (`<nil>` for nil) follow. |
| MemErrors.CreateMemErr | err.go:63-65 | The constructor stores its cause, description and wrapped error unchanged. |
| MemErrors.GetErrCause | err.go:67-69 | Applies only to an error that is a MemErr. The error is rebuilt exactly from the returned cause and its own description and wrapped error. |
| MemErrors.GetErrCauseOfCreated | err.go:63-69 | The cause read back from a created MemErr is the cause it was created with. |
| Memoizer.Step | memoizer.go:14-57 | Each request yields exactly one response, as its last event, carrying the request's id, and no close. The cache flag is set exactly when a lookup finds the cache channel closed. The classifier flag is set exactly when the classifier is asked and its channel is closed. |
| Memoizer.StepCacheTraffic | memoizer.go:15-26 | While the cache is up, the first event is a lookup for the payload's key and the request id. Once it is gone there is no cache traffic at all. Every cache event uses the payload's key and the request's id. A request causes at most one lookup and at most one store. |
| Memoizer.StepClassifierTraffic | memoizer.go:28-30 | The classifier is sent the unchanged request exactly when the cache gave no usable answer, and at most once. |
| Memoizer.StepMissEvents | memoizer.go:19-53 | Without a usable cache answer, the events are in order: the lookup (if the cache was up), one classifier request, the store (only for a classifier success while the cache is still up), then the response. |
| Memoizer.StepStores | memoizer.go:47-51 | A store happens exactly when the cache is still up, there was no hit, and the classifier answered without error and with the right id. The store is `{true, key, answer value, request id}`, and the response is that answer unchanged. |
| Memoizer.CacheHitAnswersFromCache | memoizer.go:54-56 | On a usable hit the only events are the lookup and the response `{cached value, request id, nil}`, and the flags do not change. |
| Memoizer.ClassifierCrashAnswer | memoizer.go:31-36 | A closed classifier channel yields value 0, the request id, and a MemErr with cause serCrash and "Classifier crashed". The classifier flag becomes true. |
| Memoizer.ClassifierErrorAnswer | memoizer.go:37-41 | A classifier error yields the classifier's value, the request id, and a serErr MemErr wrapping that error. Nothing is stored. |
| Memoizer.ClassifierCorruptAnswer | memoizer.go:42-46 | A classifier answer with another id yields a serCorrupt MemErr with the request id. Nothing is stored. |
| Memoizer.ClassifierSuccessAnswer | memoizer.go:47-53 | A classifier success is forwarded to the caller unchanged and error-free. |
| Memoizer.CacheLossIsAbsorbed | memoizer.go:19-28 | A lookup that finds the cache closed leads to the same response and flags as having no cache at all. Cache loss is never surfaced to the caller. |
| Memoizer.ErrorsComeFromClassifier | memoizer.go:28-57 | Any error in a response follows a classifier request, and it is a MemErr of cause serErr, serCrash or serCorrupt. |
| MemoizerRun.Steps | memoizer.go:14-58 | Request i is handled by one step from the flags left by requests 0..i-1. Each request's events end with that request's only response. |
| MemoizerRun.Shutdown | memoizer.go:59-64 | The classifier response channel is closed iff the classifier flag is false, and the cache response channel iff the cache flag is false. Each channel is closed at most once, the classifier's before the cache's, and the caller's response channel last. |
| MemoizerRun.FlagsAreSticky | memoizer.go:10-11 | Neither flag ever returns from true to false over a run. |
| MemoizerRun.OneResponsePerRequestInOrder | memoizer.go:14-57 | A run sends exactly one response per request, in request order, and the i-th response carries the i-th request's id. |
| MemoizerRun.CacheSilentOnceGone | memoizer.go:19-26 | Once a lookup has found the cache channel closed, no later request produces any cache lookup or store. |
| MemoizerRun.StoresCacheClassifierSuccesses | memoizer.go:37-53 | Every store in a run belongs to a request that missed the cache and got a classifier success. It stores that answer under the payload's key and request id, and that request's response is the same answer. |
| MemoizerRun.KeysDependOnPayloadOnly | memoizer.go:15-20 | Two requests with equal payloads use equal keys in all their cache events. |
| MemoizerRun.ClassifierStillAskedAfterCrash | memoizer.go:28-36 | After the classifier's channel was seen closed, a request the cache cannot answer is still sent to the classifier. |
| MemoizerRun.CrashesPersist | memoizer.go:29-36 | Once the classifier is gone, and its channel stays closed, every request the cache cannot answer gets the crash error. |
| MemoizerRun.FinalFlags | memoizer.go:19-36 | At the end, the cache flag is true iff some request found the cache channel closed. The classifier flag is true iff some request that missed the cache found the classifier channel closed. |
| MemoizerRun.ShutdownClosesUnobservedChannels | memoizer.go:59-64 | The trace closes the classifier's (cache's) response channel iff no request saw it closed. Closes only follow all request handling, each channel is closed at most once in the whole trace, and the caller's channel is closed last. |
| MemoizerLoop.HandleRequest | memoizer.go:15-57 | The imperative loop body leaves the same flags and performs the same events as the pure step. |
| MemoizerLoop.Serve | memoizer.go:7-65 | The imperative loop with its two mutable flags produces exactly the trace of the folded model. It answers each request once, in order, with the request's id. |
| MemoizerCache.MemoizationIsTransparent | memoizer_test.go:62-73 | Assume the cache answers from earlier stores, the classifier is a function of the payload, and no two payloads share a key. Then every response is the classifier's value for its payload, with its id and no error, even if the cache channel closes mid-run. |
| MemoizerCache.CacheGoneIffSeenClosed | memoizer.go:19-25 | The cache flag is set before request n iff a lookup for an earlier request found the cache channel closed. |
| MemoizerCache.RepeatIsCacheHit | memoizer.go:28-56 | Take a cache that answers from earlier stores, with its channel open through the repeat. If the classifier answered a payload successfully once, the same payload sent again finds a usable entry that echoes its id. The classifier may fail, its channel included, on every other request. |
| MemoizerCache.RepeatIsServedFromCache | memoizer.go:28-56 | Under the same assumptions, a repeated payload is answered without asking the classifier, whatever the classifier does on other requests. |

## Left out

- Goroutines, channel buffering, blocking, deadlock and backpressure. Each blocking receive is a scripted `Outcome`, and the order of events is the order of the sends and receives.
- The CRC-64 checksum with the ECMA table. It is a library call, so the key is a function parameter `key: Payload -> bv64`. Being a Dafny function, it is pure by construction.
- What closing a channel does to the other side. The closes are recorded as trace events only.
- The panic of closing an already closed channel. A service can close its response channel without the memoizer seeing it: the classifier when every later request is a cache hit, or the cache after the last lookup. Its flag then stays false, and in Go the close at memoizer.go:60 or :63 panics. The model records a normal close event instead.
- Sends to a service that has stopped reading. In Go these can block, or panic on a closed request channel. The model treats every send as completing.
- The classifier service (`MnistServer`) and the cache service (`Cache`). They are not part of this model and appear only as scripted answers. `MemoizerCache` assumes one particular cache behaviour, answering from the latest earlier store, to state the end-to-end properties.
- The test helpers, MNIST loading, the speed-up timing and the PNG dump in `Show`. They are file I/O and wall-clock timing.
- MemErrors.GetErrCause: Go panics when the error is not a MemErr. The model has a precondition instead, so the panic is not modelled.
- The `Exists` field of `CacheResp` is named `present`, because `exists` is a Dafny keyword.
- Integer widths: ids, values and causes are Go 64-bit integers. The memoizer does no arithmetic on them, so no wrap-around arises.
