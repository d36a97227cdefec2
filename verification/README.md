# One-time handoff of bot tokens: model and proofs

A client registers a short-lived nonce and shows its user a deep link. The user confirms the suggested
bot username in Telegram, the manager bot learns of the new bot, reads the nonce out of its username,
fetches the bot's token and completes the registration. The client polls and receives the token exactly
once; reading it deletes it. This project models that handoff in Dafny: both implementations of the
store, the three HTTP handlers, the manager's update handler, and the codec that carries a nonce through
a username and a link.

`dafny verify dfyconfig.toml` checks everything.

## How the modules fit together

| modules | what they hold |
|---|---|
| Pairing, History, Ledger | The store contract as a map with deadlines that is never swept; sequential histories of calls; what every history keeps (provenance, first write wins, one-time delivery, conservation) |
| MemoryStore, Linearizability, SequentialRuns, ClockReadings | The in-process store as a class over mutable entries, proved against the contract; then any number of goroutines running it one statement at a time, proved linearizable; the converse, that every sequential history happens; what a caller can tell of the two clock readings of a call |
| Decimal, RedisServer, RedisStore, RedisRefinement, RedisLedger, KeyIsolation | The scripts over a keyspace with deadlines; the client that decodes their replies; the proof that the two stores answer alike; what the scripts guarantee of any traffic; isolation of several stores on one server |
| Text, Regex, Nonce, NonceCounting, Username, Utf8, DeepLink | A regular-expression matcher proved against a denotation; generating, validating, packing and extracting nonces; coercing usernames; building and reading links |
| ApiErrors, Manager, Server, Protocol, Handoff | Error classes through wrapping; the update handler and the HTTP handlers as methods on a store; the end-to-end transition system, in which calls are in flight; its composition with the statements of the in-process store |

Methods model what the program does by assignment and loops, and their `ensures` tie the result to a
function of the inputs or of the old state; the lemmas are about those functions. A call of the store is
`Apply(m, call, now, stamp)`: `now` is the clock reading that decides which entries are live, and `stamp`
the later one that the call writes down.

## Assumptions

- Redis: a script is one atomic step at one reading of the server's clock; a key is expired once the clock
  is strictly past its deadline; an expired key reads as absent and may be removed at any time; nobody but
  the stores writes these keys. RedisRefinement compares the two stores on one shared millisecond clock
  with one reading per call; the memory store's two readings are apart in Linearizability.
- Text is a sequence of code points. The Unicode tables for lowering and for white space are parameters,
  of which only their behaviour on ASCII is assumed (`Text.WellFormed`), plus that lowering maps one code
  point to one code point.
- The Bot API, the random source, cancelled contexts, lost requests and lost replies are arbitrary inputs
  or nondeterministic steps. Nothing keeps two clients from drawing the same nonce.

## Where the code and its comments differ

The model follows the code in each case.

- `link/username.go:46` says that "alva_" is put in front of a name that does not start with a letter; the
  code puts "a" (line 74).
- `link/username.go:50` promises an error only for input that is empty after cleaning. The code also
  rejects what cleans to "bot" or to one letter and "bot" (line 105). `Username.SanitizeIsExact` gives the
  exact condition and `Username.NonEmptyInputsThatFail` the inputs.
- `manager/handler.go:69-75` calls repeated delivery safe. No repetition ever changes a ready registration,
  but it can run the fallback, and not only once the registration is gone: if the user has deleted the bot
  in the meantime it does so on a registration that is live and ready (`Protocol.DeletedBotFallsBack`).
  After a success, a repetition that does not end in an error falls back if and only if it is told that the
  bot is deactivated, or the registration was consumed or has run out (`Protocol.RepetitionIsExact`).
- `nonce/nonce.go:97-99` states the round trip through `Extract`, which holds for nonces of 12 characters
  and no others; through `ExtractN` with the nonce's own length it always holds (`Nonce.ExtractUndoesPack`).
- `pairing/store.go:67-69` lists expiry among the reasons for the invalid-state error; both stores report
  an expired nonce as not found (`Ledger.LaterCompletesAreRefused`).
- The completion instant is read after the sweep, so it can lie past the deadline
  (`Ledger.CompletionCanBeLate`). It does not if the call has returned by the deadline, and however little
  later a call returns there is a run in which it does (module ClockReadings). A Put likewise counts the
  lifetime from its second reading.
- The two stores differ on registrations whose lifetime is at least zero and under one millisecond, and on
  no other (`RedisRefinement.RedisRefinesMemory`, `RedisRefinement.ShortTtlIsTheOnlyDifference`).
- `pairing/stores/redis/store.go:76-77` recommends a prefix that ends in a colon, without saying what for.
  A store is isolated from the others exactly if its prefix and each of theirs do not differ by characters
  of the nonce alphabet at the end of the longer one; final colons are one way to see to that
  (`KeyIsolation.IsolationIsExact`, `KeyIsolation.ColonsIsolate`).

## Model

| member | source | states |
|---|---|---|
| Protocol.ReceivedTokenIsAuthorized | pairing/server/handlers.go:143-232 | In every run of clients, workers and manager replicas, a token a client received came from the one completion of the registration it was fetched from, before that registration's deadline, made by a recorded PUT request that was authenticated and carried this token, or with a token the Bot API had granted before for a bot whose username carries that nonce |
| Protocol.ReceivedAtMostOnce | pairing/server/handlers.go:193-232 | The effects behind two receipts for one nonce are separated by a new registration and its completion, whatever was retried, cancelled or lost |
| Protocol.ReadyAtMostOnce | manager/handler.go:69-75 | However often updates are delivered and completions retried, a registration becomes ready at most once |
| Protocol.FallbackIsExact | manager/handler.go:93-139 | In every run, a delivery that is through fell back if and only if its username carries no nonce, or it was told that the bot is deactivated, or it heard from its Complete, which met no live registration |
| Protocol.SuccessIsExact | manager/handler.go:115-128 | In every run, a delivery that is through succeeded if and only if it heard from its Complete, which met a live registration |
| Protocol.CompleteOfDelivery | manager/handler.go:115-138 | The Complete of a delivery is for the nonce its username carries: it left a live registration ready, unchanged if it was ready, or found none and changed nothing |
| Protocol.StagesFollowHandler | manager/handler.go:93-138 | The stages of a delivery, given the same answers, end as the handler method does |
| Protocol.OneCompletePerDelivery | manager/handler.go:115-116 | No delivery has more than one Complete take effect |
| Protocol.RepetitionIsExact | manager/handler.go:69-75 | After one delivery succeeded, a later one for the same username that does not end in an error falls back if and only if it was told that the bot is deactivated, or the nonce's last registration was consumed or has run out; without a new registration that is the one the first delivery found |
| Protocol.DeletedBotFallsBack | manager/handler.go:105-109 | A run in which the repetition of a successful delivery falls back while the registration is live and ready |
| Handoff.RunIsProtocolRun | pairing/memory.go:31-112 | Every run of the callers over the in-process store, with each statement of each call a step, is a run of Protocol |
| Handoff.ReceivedTokenIsAuthorized | manager/handler.go:93-139 | Provenance with calls caught half-way, for the statement-level system |
| Handoff.TokenIsHandedOver | pairing/server/handlers.go:82-232 | A run of statements from registration over the manager's completion to the receipt of the granted token, for every bot, nonce, token and lifetime |
| Handoff.PollIsServed | pairing/server/handlers.go:202-232 | From any state with an idle store, a poll for a ready registration can hand its token to the client, or lose it for good |
| Handoff.DeliveryIsServed | manager/handler.go:93-120 | From any state with an idle store, a delivery can turn the waiting registration of its nonce into a ready one with the granted token, and succeed |
| Handoff.PutIsServed | pairing/server/handlers.go:143-182 | From any state with an idle store, an authenticated PUT request can complete a waiting registration with its token |
| Handoff.PostIsServed | pairing/server/handlers.go:120-125 | From any state with an idle store, a client can register a free nonce |
| Handoff.CallsOverlap | pairing/memory.go:31-97 | From any state, whatever calls are in progress, one more can be sent |
| Handoff.ReceivedAtMostOnce | pairing/store.go:89-91 | One-time delivery with calls caught half-way, for the statement-level system |
| Protocol.RunKeepsInv | manager/handler.go:76-139 | The invariant behind all results on Protocol holds in every state of every run, replies lost after the effect and effects after the caller gave up included |
| Linearizability.RunIsLinearizable | pairing/memory.go:31-112 | For any number of goroutines interleaved statement by statement with the clock advancing in between, one sequential history explains every answer: each call takes effect once, inside its own interval, at the reading its sweep took, and writes down a later reading of its own; real-time order is kept |
| Linearizability.MutualExclusion | pairing/memory.go:35-36 | At most one goroutine is between lock and unlock |
| Linearizability.NoDeadlock | pairing/memory.go:31-112 | While calls are in progress one of them can execute its next statement |
| Linearizability.EveryoneMoves | pairing/memory.go:31-112 | A goroutine waits for nothing but the mutex: in every reachable state it can execute its statement, and never meets a missing entry |
| SequentialRuns.SequentialHistoriesHappen | pairing/memory.go:31-112 | The converse of linearizability: every sequential history, with any two readings for each call, is that of a run of statements with those very readings, answers and entries |
| SequentialRuns.UndisturbedCall | pairing/memory.go:31-112 | An undisturbed call runs through at any two readings of the clock and does exactly what the contract says |
| SequentialRuns.CancelledCallHappens | pairing/memory.go:32-34 | At any time a call with a cancelled context can return its error without any effect |
| Linearizability.RunKeepsInv | pairing/memory.go:31-112 | The invariant relating the half-swept or half-written map to the sequential store holds in every state of every run |
| History.SweepIsUnobservable | pairing/memory.go:99-112 | A store that sweeps before every call answers every call as one that only tests the deadline of the nonce it looks up |
| History.SweepKeepsLive | pairing/memory.go:105-112 | After any monotone history the swept and the never-swept map have the same live entries |
| Pairing.ApplyIgnoresDead | pairing/store.go:54-92 | Maps with the same live part give the same answer to any call and have the same live part ever after |
| Ledger.FetchedIsFirstWrite | pairing/memory.go:59-97 | A fetched entry carries the token, username and completion instant of the only completion since the last registration, and was fetched before its deadline |
| Ledger.LaterCompletesAreRefused | pairing/memory.go:59-65 | Any further completion of the same registration changes nothing; it is refused as invalid up to the deadline and as not found after it |
| Ledger.FetchedAtMostOnce | pairing/store.go:84-91 | Between two successful fetches of a nonce lie a registration and its completion |
| Ledger.TheRestAreNotFound | pairing/store.go:89-91 | After a fetch every other call for the nonce is told not found until the nonce is registered again, which then succeeds |
| Ledger.CompletedAtMostOnce | pairing/memory.go:59-70 | Between two successful completions of a nonce lies a new registration |
| Ledger.ReregistrationNeedsAnEnd | pairing/memory.go:38-46 | A nonce is registered again without having been fetched only after its deadline |
| Ledger.CompletionCanBeLate | pairing/memory.go:66-69 | In any history, a ready entry's completion was decided before the deadline of its registration, and records an instant within it if and only if its second clock reading is |
| ClockReadings.DeadlineIsCountedFromSecondReading | pairing/memory.go:43-46 | For any two readings there is a run in which a Put sweeps at the first, returns at the second and leaves a deadline counted from the second |
| ClockReadings.DeadlineIsCountedWithinPut | pairing/memory.go:31-48 | In any concurrent run, the deadline a returned Put set lies between its invocation and its return, each plus the lifetime |
| ClockReadings.ReturnedInTimeIsRecordedInTime | pairing/memory.go:50-71 | In any concurrent run, a Complete that had returned by the deadline of its registration recorded an instant within it |
| ClockReadings.ReturnedLateCanBeRecordedLate | pairing/memory.go:50-71 | For any lifetime and any later instant there is a run of statements in which a Complete returns at that instant and recorded it, past the deadline |
| Ledger.SlotOrigin | pairing/memory.go:31-97 | Every entry in the map is explained by one registration, its deadline and, when ready, its one completion |
| Ledger.Conservation | pairing/memory.go:31-122 | At any instant puts = fetched + expired + live and completes = fetched + expired while ready + live and ready, hence fetches <= completes <= puts |
| Ledger.LenIsWhatIsLeft | pairing/memory.go:114-122 | At any instant the number of live entries is the sum, over all nonces, of registrations minus fetches minus those that have run out |
| Ledger.LiveUnlessOver | pairing/memory.go:31-112 | A nonce is live if and only if its last registration was neither consumed nor has run out |
| Ledger.ConcurrentFetchersShareNothing | pairing/store.go:89-91 | In any concurrent run two calls that were both handed an entry for a nonce are separated by a registration and a completion that took effect in between |
| Ledger.ConcurrentConservation | pairing/memory.go:31-112 | Both balance equations hold of the effects of any concurrent run at any instant; while nobody holds the mutex they hold with the store's own live entries, whose number is the sum over all nonces |
| MemoryStore.MemoryEntry.constructor | pairing/memory.go:43-46 | A new entry is waiting, has no token, and has the given deadline |
| MemoryStore.MemoryStore.constructor | pairing/memory.go:12-16 | A new store is empty |
| MemoryStore.MemoryStore.SweepLocked | pairing/memory.go:105-112 | Whatever the iteration order, exactly the entries not past their deadline remain, unchanged and as the same objects |
| MemoryStore.MemoryStore.Put | pairing/memory.go:31-48 | Sweeps and then does what the store contract says of Put; a cancelled context changes nothing |
| MemoryStore.MemoryStore.Complete | pairing/memory.go:50-71 | Sweeps and then does what the store contract says of Complete |
| MemoryStore.MemoryStore.FetchAndDelete | pairing/memory.go:73-97 | Sweeps and then does what the store contract says of FetchAndDelete |
| MemoryStore.MemoryStore.Len | pairing/memory.go:117-122 | Returns the number of live registrations |
| RedisRefinement.RedisRefinesMemory | pairing/stores/redis/store.go:107-195 | Any sequence of calls read off one clock gets the same answers from the scripts and their decoding as from the memory store, completion instants rounded down to the second; lifetimes may be anything but zero to just under one millisecond |
| RedisRefinement.ShortTtlIsTheOnlyDifference | pairing/stores/redis/store.go:112 | Registering and polling within one millisecond, the stores agree if and only if the lifetime is not zero to just under one millisecond |
| RedisRefinement.StepRefines | pairing/stores/redis/store.go:107-195 | One call on related states answers alike and leaves related states |
| RedisRefinement.RunRefines | pairing/stores/redis/store.go:107-195 | After any sequence of calls both stores hold the same live registrations |
| RedisRefinement.DecodingNeverFails | pairing/stores/redis/store.go:116-194 | In every reachable state, whatever second each caller reads, the hashes are well-shaped, and the unexpected-result, unexpected-shape, field-type and parse-error branches are dead |
| RedisRefinement.ScriptsKeepShape | pairing/stores/redis/complete.lua:14-29 | A waiting hash has no token fields and a ready one all three with a printed 64-bit instant; every script keeps this |
| RedisRefinement.MemoryHistoryIsLegal | pairing/memory.go:31-97 | The answers the refinement compares with form a sequential history, so all of Ledger applies to them |
| RedisRefinement.LossesHideNothing | pairing/stores/redis/store.go:112-115 | With requests and replies lost at will, the server is where the executed requests lead, and a delivered reply is the one they lead to |
| RedisRefinement.ToldMeansExecuted | pairing/stores/redis/store.go:113-123 | A caller told anything but a backend error made a call that the server executed, and is told what the executed requests lead to |
| RedisRefinement.LostMeansError | pairing/stores/redis/store.go:113-115 | A request or reply that got lost is reported as a backend error |
| RedisLedger.RedisFetchedIsFirstWrite | pairing/stores/redis/store.go:153-195 | In any traffic, with messages lost, clocks stepping back and any lifetime, a fetched entry carries the token, the username and the very Unix second of the only completion since the last registration of its nonce |
| RedisLedger.RedisFetchesAtMostOnce | pairing/stores/redis/fetch_and_delete.lua:10-25 | In any such traffic, between two executed fetches that answered with an entry of one nonce, heard or not, a registration and a completion of it were executed |
| RedisLedger.RedisCompletesAtMostOnce | pairing/stores/redis/complete.lua:17-29 | In any such traffic, between two executed completions of one nonce a registration of it was executed |
| RedisLedger.HeardIsAnswered | pairing/stores/redis/store.go:112-123 | Whoever hears a reply hears the answer of the script, so the results on effects are about what callers are told |
| RedisLedger.HashOrigin | pairing/stores/redis/complete.lua:14-29 | Every hash on the server goes back to one executed registration and, when ready, to one executed completion |
| KeyIsolation.IsolationIsExact | pairing/stores/redis/store.go:76-104 | A store answers as if alone in all traffic of a set of prefixes if and only if no other prefix of the set differs from its own by nonce characters at the end of the longer one |
| KeyIsolation.StoresAreIsolated | pairing/stores/redis/store.go:76-104 | In any traffic on valid nonces, a store whose prefix clashes with no other answers as on a server of its own |
| KeyIsolation.ColonsIsolate | pairing/stores/redis/store.go:76-80 | With prefixes that end in a colon every store answers as on a server of its own |
| KeyIsolation.ClashIsSeen | pairing/stores/redis/store.go:101-124 | Whenever two distinct prefixes clash, some traffic tells one store that a nonce it never used is taken, which on a server of its own is free |
| KeyIsolation.KeysMeetIffPrefixesClash | pairing/stores/redis/store.go:101-104 | Two prefixes have a key in common, over valid nonces, if and only if they clash |
| KeyIsolation.KeyIsInjective | pairing/stores/redis/store.go:101-104 | Unless two distinct prefixes clash, the key determines prefix and nonce |
| RedisServer.Server.PutScript | pairing/stores/redis/put.lua:10-15 | Creates a waiting hash with a deadline unless a live one exists |
| RedisServer.Server.CompleteScript | pairing/stores/redis/complete.lua:17-29 | Turns a waiting hash ready and keeps its deadline; refuses any other |
| RedisServer.Server.FetchScript | pairing/stores/redis/fetch_and_delete.lua:14-25 | Reads a ready hash and deletes it in the same step; refuses any other |
| RedisStore.Store.Put | pairing/stores/redis/store.go:107-124 | Runs the script on prefix and nonce with whole milliseconds, and decodes; a lost request has no effect, a lost reply hides one, and either is a backend error |
| RedisStore.Store.Complete | pairing/stores/redis/store.go:127-150 | Likewise for Complete, with the instant in printed Unix seconds |
| RedisStore.Store.FetchAndDelete | pairing/stores/redis/store.go:153-195 | Likewise for FetchAndDelete |
| Decimal.ParseUndoesFormat | pairing/stores/redis/store.go:184 | Parsing gives back every printed 64-bit integer |
| Manager.Handler.HandleUpdate | manager/handler.go:76-139 | For each update: which registration changes, which outside calls are made in which order, and which error is returned; in particular a waiting live registration becomes ready with the token, the username and its old deadline |
| Manager.Handler.CompletePairing | manager/handler.go:115-138 | The completion stage: its effect on the registrations, its fallback and its error for each answer of the store |
| Manager.DeactivatedBranchIsExact | manager/handler.go:105-109 | The deactivated branch is taken exactly on a 403 with the marker, under any wrapping |
| Manager.DeliveryIsExact | manager/handler.go:76-139 | One delivery, on any registrations and for every answer of the outside world: the new registrations and how it ends, with its error |
| Manager.FallbackReachesCreator | manager/handler.go:142-160 | The fallback is one callback, or one message to the creator, or nothing if the creator is unknown; its error is returned |
| Manager.DeliveryIsIdempotentWhileLive | manager/handler.go:116-134 | On a registration that is live and ready a delivery changes nothing live; it falls back if and only if the bot is reported as deactivated, and succeeds if and only if it gets a token and its context is alive |
| Manager.DuplicateAfterFetchFallsBack | manager/handler.go:129-134 | On any store, the delivery that would have succeeded just before a fetch falls back at any time after it |
| Server.PostPair | pairing/server/handlers.go:82-138 | Answers 201 if and only if a link can be presented and the fresh nonce is free; then the nonce is registered for the configured lifetime, or 900 seconds, and the link reads back to the manager, the packed nonce and the configured name; on 500 the live registrations are what they were |
| Server.PresentLink | pairing/server/handlers.go:88-118 | A nonce and a link are produced exactly when randomness, prefix and link options allow, before any store call |
| Server.LinkCarriesNonce | pairing/server/handlers.go:99-111 | Whoever confirms the link's username in any letter case gives the nonce back |
| Server.CanPresentLinkIsExact | pairing/server/handlers.go:95-118 | A link can be presented if and only if the configured prefix is acceptable and has at most 15 characters, the manager's username is valid and the trimmed name has at most 64 characters |
| Server.Register | pairing/server/handlers.go:120-136 | With a link, the store call and the answer succeed if and only if the context is alive and the nonce is free, and change nothing live otherwise |
| Server.PutPair | pairing/server/handlers.go:143-191 | The status of every kind of request, and the whole new state: only an authenticated, acceptable completion of a live waiting registration changes anything |
| Server.DeletePair | pairing/server/handlers.go:202-232 | The status of every kind of request: a ready registration is delivered and deleted, a waiting one is left |
| Nonce.NewN | nonce/nonce.go:67-83 | Each output character is the alphabet entry at the remainder of its byte by 32; a result is a valid nonce of the requested length |
| NonceCounting.GenerationIsUnbiased | nonce/nonce.go:67-83 | Each string of length n over the alphabet is the image of exactly 8^n of the 256^n buffers |
| Nonce.AlphabetIsCrockford | nonce/nonce.go:22-27 | The alphabet is the digits and the lowercase letters other than i, l, o, u |
| Nonce.Validate | nonce/nonce.go:182-192 | Accepts exactly the strings of at least 8 characters over the alphabet |
| Nonce.ValidationErrorIsExact | nonce/nonce.go:182-192 | The error says too short exactly for fewer than 8 bytes, and otherwise names the first character outside the alphabet |
| Nonce.PatternDenotes | nonce/nonce.go:93-95 | The pattern matches exactly prefix, underscore, nonce of the given length, "_bot", and captures the nonce |
| Nonce.ExtractIsExact | nonce/nonce.go:164-177 | Extraction yields n if and only if the lowered username is the lowered prefix packed with the nonce n of the given length |
| Nonce.UniqueDecoding | nonce/nonce.go:97-101 | A packed username determines its prefix and its nonce, across all prefixes and lengths |
| Nonce.ExtractionIsUnambiguous | nonce/nonce.go:154-177 | Whatever prefixes and lengths are tried, a username yields at most one nonce |
| Nonce.PackIntoUsername | nonce/nonce.go:115-152 | Succeeds or fails as specified, with the first broken rule |
| Nonce.PackIsExact | nonce/nonce.go:109-151 | Packing succeeds if and only if the prefix is good, the nonce valid and the result at most 32 characters; the closing drift check is dead |
| Nonce.PackErrorIsExact | nonce/nonce.go:109-144 | When packing fails, the error names the first broken rule and the first bad character |
| Nonce.ExtractUndoesPack | nonce/nonce.go:97-101 | Extraction undoes packing, in any letter case of the username, if and only if it is given the nonce's own length; so `Extract` does exactly for nonces of 12 characters |
| Nonce.PackUndoesExtract | nonce/nonce.go:154-177 | Packing an extracted nonce gives back the lowered username if and only if the prefix is acceptable and the username at most 32 characters |
| Regex.SearchIsDenotation | nonce/nonce.go:168-172 | The backtracking matcher with capture finds exactly the matches the expression denotes |
| Regex.AnchoredFind | nonce/nonce.go:172 | An anchored expression is found exactly when it matches at the start |
| Username.RegexIsExact | link/username.go:28 | The expression matches exactly a letter, word characters and a final "bot" in any case, although its star overlaps the suffix |
| Username.ValidateIsExact | link/username.go:33-41 | Validation accepts exactly the strings of that language with 5 to 32 characters |
| Username.CleanText | link/username.go:57-70 | The loop replaces every other character by an underscore |
| Username.SanitizeUsername | link/username.go:51-109 | The rewriting steps compute the specified result |
| Username.SanitizeIsExact | link/username.go:50-109 | Sanitizing fails if and only if the trimmed text is empty or cleans to "bot" or one letter and "bot"; otherwise the result is a lowercase username; the defensive branch is dead |
| Username.SanitizeIsSpelledOut | link/username.go:52-103 | The result, from the padding to the cut: each character lowered and cleaned, an "a" in front if there is no letter, the ending with exactly one underscore where one is needed, and the cut in front of the ending |
| Username.SanitizeIgnoresPadding | link/username.go:52-55 | Spaces around a text make no difference, and exactly blank text is refused as empty |
| Username.SanitizeKeepsText | link/username.go:72-103 | The result continues the cleaned text, or is 32 characters long and agrees with it up to the suffix |
| Username.TruncateKeepsClean | link/username.go:85-103 | The cut brings a clean name to exactly 32 characters, keeps it clean and cuts only in front of the suffix |
| Username.SanitizeLowersUsernames | link/username.go:43-49 | A valid username is mapped to its lowercase form |
| Username.SanitizeIsIdempotent | link/username.go:43-49 | Sanitizing a result changes nothing |
| Username.NonEmptyInputsThatFail | link/username.go:105-107 | Inputs that are not empty after cleaning and yet fail |
| DeepLink.BuildIsExact | link/builder.go:38-59 | A link is built if and only if both usernames are valid and the trimmed name has at most 64 characters |
| DeepLink.ReadUndoesBuild | link/builder.go:49-65 | Taking a link apart, with percent-decoding per section 2.1 of RFC 3986, gives back both usernames and the trimmed name |
| DeepLink.BuildErrorIsExact | link/builder.go:39-59 | When no link is built, the error names the first part that is not acceptable |
| DeepLink.BuildIsSpelledOut | link/builder.go:49-65 | The link letter for letter |
| DeepLink.BuildIgnoresPadding | link/builder.go:55-62 | Spaces around a suggested name make no difference to the link |
| DeepLink.LinkNameIsTight | link/builder.go:56 | The name in a link is the suggested one without the spaces around it |
| Text.TrimSplits | link/username.go:52 | Trimming takes spaces off both ends and leaves none there |
| Text.TrimIsUnique | link/username.go:52 | That determines the result |
| DeepLink.BuildIsInjective | link/builder.go:49-65 | Different parts give different links |
| DeepLink.PackedIsUsername | nonce/nonce.go:120-144 | A packed nonce is always an acceptable suggested username |
| Utf8.DecodeUndoesEncode | link/builder.go:57 | Strict UTF-8 decoding undoes encoding |
| Utf8.UnescapeUndoesEscape | link/builder.go:62 | Unescaping a query component undoes escaping it |
| Utf8.EscapesAreSpelledOut | link/builder.go:62 | A space is a plus sign, unreserved characters stand for themselves, and others are escaped in upper case |
| Utf8.ByteLenIsEncodedLength | link/username.go:34 | The length that bounds usernames and nonces is that of the UTF-8 form |
| ApiErrors.ClassSurvivesWrapping | tgapi/errors.go:57-84 | Under any number of wraps the search finds exactly the sentinel that was chosen, and the code and description can be recovered |
| ApiErrors.EnvelopeIdentity | tgapi/methods.go:89-98 | The double wrap of a failed envelope is found under its sentinel and as an API error |
| ApiErrors.PredicatesAreExact | tgapi/errors.go:75-84 | Each predicate holds exactly on its own code, deactivation only with the marker, so at most one holds |
| ApiErrors.ContainsIsInfix | tgapi/errors.go:66 | The marker counts wherever it stands in a longer description |

## Left out

- HTTP plumbing: headers, JSON, body limits, routing, adapters and logging; a handler is its checks, its store call and its status.
- The Bot API client's transport, its method wrappers and the texts of messages and errors; its answers are arbitrary inputs.
- Drift reconciliation (`reconcile/drift.go`), a loop-free table of cases.
- How a request is authenticated; the outcome is a boolean.
- Redis itself: script caching, clustering, clock skew, persistence and failover.
- The quality of the random source; the random buffer is an arbitrary input.
- The Unicode case and space tables beyond ASCII, and Go strings that are not well-formed UTF-8.
- The concrete syntax of regular expressions and the quoting of the prefix; patterns are syntax trees.
- The range of Go's time and duration types: instants and durations are unbounded integers, except where Redis prints and parses them.
- Formatting of the completion instant in the DELETE response; the response carries the instant.
- A context cancelled in the middle of a Redis call is modelled as a lost request or a lost reply.
- Linearizability.RunIsLinearizable: does not include Len among the interleaved calls, because it answers with a size and no call of the store contract; it is proved as a method and counted in Ledger.
- Handoff.RunIsProtocolRun: is about the in-process store; for the scripts, each one atomic, RedisRefinement gives the sequential history Protocol assumes for lifetimes the two stores agree on, and RedisLedger states provenance and one-time delivery for all.
- Server.PostPair: is stated for the memory store; through RedisRefinement the Redis store gives its callers the same answers.
