# Bongsu, modelled and proved

Bongsu is an inventory agent and a server. Agents scan hosts and deliver reports; the
server keeps them, throttles its callers and lets an AI propose actions that people
approve. This project models the parts of both that carry state or exact string and
number work, and proves what they are for.

Code that changes state in the original is a class or a method with loops here, proved
against a function or a ghost log; what the original promises is then proved of that
function or log. Clocks, the network, the disk's behaviour and library calls are
parameters, so every theorem holds for all of their answers.

| file | what it models |
|---|---|
| LoginLog, LoginLimiter, LoginLockout | the login limiter: a small, forgetful table against the full log of attempts, and what that means for names and addresses |
| SpoolNames, Spool | store-and-forward delivery under failing disks, a failing server and power loss |
| Retry | retry, backoff and Retry-After in wrapping 64-bit arithmetic |
| Utf8, CollectionErrors | truncation of UTF-8 and the bounded error list |
| RateLimit | the per-address limiter with idle cleanup, against one that never forgets |
| TokenStore | the API-token cache, and every interleaving of its users with the token table |
| GraphScope | cache keys by access scope, and the cache that uses them |
| AiPolicy, AiActions | the decision engine, and approvals under every interleaving of handlers |
| VersionOrder, VersionTexts | the version comparison of the web client, and what it says about versions as written |
| PackageDb | the dpkg and apk readers |
| Containment, ShellQuote, Prometheus, PrometheusRead, LangDedupe | path containment, shell quoting, the metrics writer, in-place deduplication |
| Prelude, Lex | strings, sets, byte order and sorting |

`dafny verify dfyconfig.toml` checks everything.

## Where the code does not keep a promise

Each of these is a theorem; the model follows the code.

- Overlapping login requests can all pass the check before any of them records its
  failure. With at most w requests at once a record counts up to maxFailures - 1 + w = c,
  not maxFailures (`CountBound`), and an interval as long as the window can hold 2c - 1
  failures (`SlidingWindow`). Both are attained for every w (`OverlapOvershoots`,
  `BoundIsTight`).  So failures within some window do not lock anyone out by themselves;
  those since the first failure of a window do (`WornOutIsRefused`).
- The backoff before jitter is the capped power of two, except that it is zero for the
  attempts 35-37, 39-41, 44, 45, 47, 49, 50, 53 and all from 55 on, where the 64-bit
  product wraps (`BackoffIsExponentialUntilItWraps`). A Retry-After in seconds is honoured
  up to the cap except beyond 292 years (`RetryAfterHonoured`).
- File names sort by time unless the later of two times lies before 1970
  (`FileNameOrder`).
- A token refresh that read the table before a revocation and installs after it brings
  the revoked token back (`RevokedTokenCanReturn`); `OverlappedRefresh` says for which
  tokens an overlapped refresh is wrong.
- `RejectAIApproval` passes its two arguments in the opposite order to its statement, so a
  rejection reaches the approval it names only if its id is the name of the person
  rejecting (`RejectionReaches`).
- An approval can stay approved for good without having been carried out. A revert does
  this if and only if its statement fails or the finding has been queued again meanwhile
  (`RevertStrandsIff`); `RequeueStrands` is a run from nothing that gets there with no
  statement failing but the action's own, and a handler that vanishes always gets there
  (`VanishStrands`, `SettledForever`).
- The comment on `ProtectProduction` says such actions always need a human; in auto mode
  they are applied (`DecideMeans`).
- A sample can come without a TYPE line of its name: exactly if an earlier label value
  made the name look announced (`OneMoreMetric`, `TypedRun`); `LabelMisleads` is such a run.
- Idle cleanup can be noticed when the burst exceeds what ten minutes refill
  (`CleanupCanShow`).
- The dpkg reader's comment asks for "install ok installed"; the code accepts any Status
  that contains "installed", and an absent one. A file reads as its properly installed
  stanzas if and only if no reportable stanza has such a Status (`StatusTestIsExactIff`);
  a half-installed package and one without Status are reported (`StatusTestIsTooKind`).

## Model

| member | source | states |
|---|---|---|
| LoginLog.CountBound | internal/server/api/login_limiter.go:65-89 | over every log that at most w overlapping handlers can produce, no record counts past maxFailures - 1 + w (maxFailures for one at a time), and a live record leaves room for the requests still under way |
| LoginLog.SlidingWindow | internal/server/api/login_limiter.go:9-13 | in any interval no longer than the window one key gets at most 2 * (maxFailures - 1 + w) - 1 failures past the check, from any point after which it is not cleared |
| LoginLog.BoundIsTight | internal/server/api/login_limiter.go:65-89 | for every maxFailures, window and w a log attains the bound of SlidingWindow |
| LoginLog.OverlapOvershoots | internal/server/api/auth_handlers.go:43-73 | for every w, that many overlapping requests can drive a record to maxFailures - 1 + w |
| LoginLog.LedgerIsBacked | internal/server/api/login_limiter.go:81-88 | a record never counts failures that did not happen since its first |
| LoginLog.LockoutIsDeserved | internal/server/api/login_limiter.go:46-62 | a lockout means at least maxFailures failures of that key within the window ending now |
| LoginLimiter.Limiter.Keys | internal/server/api/login_limiter.go:100-109 | at most two keys, distinct, each marked as address or user name; which ones is what KeysAreWho and the lockout theorems settle |
| LoginLimiter.Limiter.Blocked | internal/server/api/login_limiter.go:46-62 | answers as the full log would, whatever has been forgotten; drops expired records only |
| LoginLimiter.Limiter.Fail | internal/server/api/login_limiter.go:65-89 | the log grows by this failure, preceded by a reset exactly on overflow; without one only expired records disappear; the table stays within the cap plus one |
| LoginLimiter.Limiter.Bump | internal/server/api/login_limiter.go:81-88 | every key's record is raised or restarted, all others untouched, table and log still agree |
| LoginLimiter.Limiter.Purge | internal/server/api/login_limiter.go:72-76 | exactly the expired records go, and the table still answers for the log |
| LoginLimiter.Limiter.Succeed | internal/server/api/login_limiter.go:92-98 | exactly the attempt's keys are cleared |
| LoginLimiter.Limiter.Admit | internal/server/api/auth_handlers.go:42-47 | admits exactly the attempts the log does not lock out, and keeps the handler discipline |
| LoginLimiter.Limiter.Settle | internal/server/api/auth_handlers.go:49-73 | appends the outcome of an admitted attempt, after a reset exactly if the log is crowded, and keeps the handler discipline |
| LoginLimiter.Limiter.RecordsAreBounded | internal/server/api/login_limiter.go:14-25 | however requests interleave, no record in the table counts past maxFailures - 1 + w |
| LoginLimiter.Attempt | internal/server/api/auth_handlers.go:42-73 | an attempt is refused exactly if the log locks it out; what it appends to the log is fixed to the last event, resets included |
| LoginLimiter.HandleLogin | internal/server/api/auth_handlers.go:27-73 | the reply exactly for blank fields, for the two library verdicts and for a lockout; reply and log are functions of the request and the log before it alone |
| LoginLimiter.ServeLogins | internal/server/api/auth_handlers.go:27-73 | over any run every reply is the one the log before it demands and the log grows by exactly what each request calls for; every record and every window of every key stays within its bound |
| LoginLimiter.ServeFewKeys | internal/server/api/auth_handlers.go:27-73 | on a fresh limiter and with fewer than 100000 keys in play, the window bound holds outright: a key for which no password is ever right fails at most 2 * maxFailures - 1 times per window |
| LoginLimiter.UnluckyRun | internal/server/api/auth_handlers.go:27-73 | such runs never reset the table and never clear such a key |
| LoginLimiter.OverflowIffCrowded | internal/server/api/login_limiter.go:69-80 | the table is thrown away if and only if 100000 keys have live records in the full log, whatever has been forgotten |
| LoginLimiter.CrowdHasFailed | internal/server/api/login_limiter.go:69-80 | each of those keys failed within the window ending now |
| LoginLockout.WornOutIsRefused | internal/server/api/login_limiter.go:46-109 | over requests and replies alone: once a user name (blanks and case aside, from any addresses) or an address (with any names) has failed maxFailures times since its first failure in a window, with no success and no reset between, every further request with it is refused until that window ends |
| LoginLockout.RefusalIsDeserved | internal/server/api/login_limiter.go:46-109 | whoever is refused shares a name or an address with at least maxFailures failed requests of the window ending then |
| LoginLockout.StrangersAreServed | internal/server/api/login_limiter.go:46-109 | a request that shares neither name nor address with any failed one is not refused |
| LoginLockout.FewPeopleNoReset | internal/server/api/login_limiter.go:69-80 | with fewer than 100000 names and addresses the table is never reset |
| LoginLockout.ServePeople | internal/server/api/auth_handlers.go:27-73 | serving any run from the start does all this; and with fewer than 100000 names and addresses, whoever never logs in fails at most 2 * maxFailures - 1 times in any window |
| LoginLockout.KeysAreWho | internal/server/api/login_limiter.go:100-109 | a request counts for the name and for the address it is about, and for nobody else |
| SpoolNames.SanitizeScanID | internal/agent/reporter/spool.go:48-63 | the trimmed id, or "noid", with every unsafe character masked |
| SpoolNames.SanitizedIsSafe | internal/agent/reporter/spool.go:48-63 | only letters, digits, hyphens and underscores remain, and an id of nothing else is kept |
| SpoolNames.DigitsOrder | internal/agent/reporter/spool.go:40-46 | equal-width numbers sort as text as they do as numbers, whatever follows |
| SpoolNames.StampOrder | internal/agent/reporter/spool.go:43-46 | 20-column times sort by time, two negative ones the other way round |
| SpoolNames.FileNameOrder | internal/agent/reporter/spool.go:40-46 | for t < u name order is time order if and only if u is not negative |
| SpoolNames.FileNameInjective | internal/agent/reporter/spool.go:43-63 | equal names have equal times and equal masked ids |
| SpoolNames.FileNamesAreListed | internal/agent/reporter/spool.go:66-94 | a report's name is listed, its temporary name is not |
| Spool.Agent.EvictForCapacity | internal/agent/reporter/spool.go:130-150 | removes the oldest files, none unless the spool is full and then no more than make room for one, up to the first that cannot be removed; held reports go only by eviction |
| Spool.Agent.WriteAndRename | internal/agent/reporter/spool.go:117-126 | success replaces one name by the whole report; failure leaves every report alone and removes the temporary file |
| Spool.Agent.Send | internal/agent/reporter/reporter.go:222-256 | a report is acknowledged if and only if the server took it while power was on |
| Spool.Agent.WriteTemp | internal/agent/reporter/spool.go:119-121 | only the temporary name changes; a write cut short leaves a prefix there |
| Spool.Agent.Rename | internal/agent/reporter/spool.go:122-125 | atomic: the finished file under its name, or no change |
| Spool.Agent.EvictAndWrite | internal/agent/reporter/spool.go:110-126 | eviction may fail, the report is written all the same; reports go only by eviction or under the same name |
| Spool.Agent.SpoolReport | internal/agent/reporter/spool.go:96-128 | afterwards exactly the files not evicted and the new one are listed; if removal works these are the newest max - 1 and the new one; an evicted report left max - 1 newer ones that stay |
| Spool.ListingAfterSpool | internal/agent/reporter/spool.go:107-126 | eviction, write and rename together change the listing to the newest old names plus the new one |
| Spool.OldestAreEvicted | internal/agent/reporter/spool.go:130-150 | whatever an eviction takes, even one cut short by a power loss, max - 1 newer files of the same listing stay |
| Spool.Agent.ReplayOne | internal/agent/reporter/spool.go:170-195 | unreadable and corrupt files are dropped, others sent and deleted once acknowledged; a report is acknowledged exactly if sent; a held report goes only if acknowledged or unreadable |
| Spool.Agent.ReplaySpool | internal/agent/reporter/spool.go:158-197 | the usable files before the first refusal are acknowledged, in order and counted, and nothing else is, even if power goes; with power what stays is the suffix from there and what could not be deleted; only safe losses |
| Spool.AcksHaveFiles | internal/agent/reporter/spool.go:158-197 | whatever a replay acknowledges was read from a file that was there and taken by the server |
| Spool.ListedFilesAreComplete | internal/agent/reporter/spool.go:96-99 | no listed file is ever cut short: it is foreign, or a report that reads back whole |
| Spool.Agent.Deliver | cmd/agent/main.go:608-621 | acknowledged only if the server takes it, and with power exactly then; otherwise on disk or lost; every change to what is acknowledged, held, lost, replaced or evicted has its reason in this report and this run; with power it is sent or spooled as meant |
| Spool.Agent.Run | cmd/agent/main.go:391-397 | one run keeps every completed report accounted for, whatever fails and whenever power goes; every change, acknowledgements included, has its reason in this run, and an evicted report left max - 1 newer ones; with power, or a supply for three operations a listed file and four more, the run does exactly what it is for |
| Spool.Agent.RunAll | cmd/agent/main.go:391-397 | over any runs every completed report is acknowledged, on disk, evicted, unreadable, replaced or lost, each with the run that caused it: acknowledged only as the scan a server took or from a file a server took, lost only where power went or the spool could not be written, replaced only by a report of the same name, evicted only from a full spool with max - 1 newer files staying, unreadable only where its file could not be read; a run whose power lasts does what it is for; no listed file is partial |
| Spool.Agent.RunWell | cmd/agent/main.go:391-397 | on steady power, with a writable spool and distinct names, nothing is lost or replaced: every report is acknowledged, on disk whole, dropped as unreadable, or evicted, delivered at once exactly if the server takes it; while no server takes anything nothing new is acknowledged |
| Spool.RunsAreExplained | cmd/agent/main.go:391-397 | by induction over any runs, every change to the account has its reason in one of them |
| Spool.NoServerNoAcks | cmd/agent/main.go:391-397 | over any runs in which no server takes anything, nothing is acknowledged |
| Spool.ServerBackDeliversAll | cmd/agent/main.go:391-397 | once the server takes what is spooled, one run with power delivers every readable report on disk |
| Spool.ExplainedStep | cmd/agent/main.go:391-397 | the reasons of one run extend to all runs so far |
| Spool.WellRunLosesNothing | cmd/agent/main.go:608-621 | with writable spools and distinct names the reasons for losing or replacing a report never apply |
| Spool.NameOrderIsTimeOrder | internal/agent/reporter/spool.go:40-46 | names in order belong to reports in order of time |
| Spool.SortedNamesAscend | internal/agent/reporter/spool.go:65-94 | a listing of held reports ascends in time, so eviction takes the oldest |
| Spool.DeliveredInTimeOrder | internal/agent/reporter/spool.go:152-197 | what a sorted list of files of this agent delivers ascends in time |
| Spool.ReplayDeliversInTimeOrder | internal/agent/reporter/spool.go:158-197 | what a replay over files of this agent adds to the acknowledged reports ascends in time |
| Retry.BackoffIsExponentialUntilItWraps | internal/agent/reporter/reporter.go:94-102 | for every attempt and caps up to 2^61 ns, the delay before jitter is min(2^(attempt-1) s, cap), or 0 exactly for the attempts that wrap away; BackoffIsExponentialIff covers all caps |
| Retry.BackoffIsExponentialIff | internal/agent/reporter/reporter.go:94-102 | for every positive cap, the delay before jitter is min(2^(attempt-1) s, cap) if and only if the attempt is at most 34 or its wrapped delay reaches the cap |
| Retry.RetryAfterHonoured | internal/agent/reporter/reporter.go:65-92 | a Retry-After in seconds is honoured up to the cap if and only if it does not wrap below the cap |
| Retry.RetryDateHonoured | internal/agent/reporter/reporter.go:65-92 | a date is honoured up to the cap, a past one at once; a negative, missing or malformed value is no wish |
| Retry.DrawIsEmptyIff | internal/agent/reporter/reporter.go:98-103 | the range of the random draw is empty if and only if the cap is one nanosecond and the doubled delay positive |
| Retry.DrawIsNeverEmpty | internal/agent/reporter/reporter.go:45-59 | no setting of the environment gives that cap, so the draw is never empty |
| Retry.JitterFits | internal/agent/reporter/reporter.go:103-104 | no draw overflows if and only if one and a half times the delay is at most 2^63 |
| Retry.Reporter.ExponentialBackoff | internal/agent/reporter/reporter.go:94-105 | never asks for an empty range; for caps up to 2^62 ns the result is in [0, 1.5 cap) and at least the delay before jitter |
| Retry.Reporter.RetryDelay | internal/agent/reporter/reporter.go:107-114 | the server's wish capped, else the jittered backoff of that attempt |
| Retry.Reporter.Try | internal/agent/reporter/reporter.go:123-135 | a reply is returned exactly if it is a response with a status below 500 other than 429, else a delay follows from it |
| Retry.Reporter.DoWithRetry | internal/agent/reporter/reporter.go:116-138 | stops at the first response below 500 other than 429, makes all attempts otherwise, sleeps between calls only, each delay follows from the call before it, total sleep at most 1.5 caps per pause |
| Retry.TotalWithinCap | internal/agent/reporter/reporter.go:116-138 | pauses within 1.5 caps sum to at most their number times 1.5 caps |
| Utf8.TruncateValidUTF8 | cmd/agent/main.go:676-685 | the longest well-formed prefix within the limit, at most three bytes below it for well-formed input; input that fits unchanged |
| Utf8.BoundaryNearby | cmd/agent/main.go:676-685 | a well-formed text has a character boundary within three bytes below any limit |
| Utf8.ValidConcat | cmd/agent/main.go:665-668 | well-formed texts joined are well-formed |
| Utf8.ValidMeansEncoded | cmd/agent/main.go:676-685 | the byte strings accepted are exactly the UTF-8 encodings of sequences of code points without surrogates |
| CollectionErrors.TrimBlanks | cmd/agent/main.go:711-719 | the text without its blanks at both ends |
| CollectionErrors.EntryFor | cmd/agent/main.go:665-668 | the trimmed text, or its longest well-formed prefix and a mark; at most 2062 bytes |
| CollectionErrors.ErrorList.Append | cmd/agent/main.go:661-674 | the list is everything reported, or the first 31 and a marker once there are more than 32; entries of at most 2062 bytes, the first 31 never change |
| CollectionErrors.ShownAppend | cmd/agent/main.go:669-673 | overwriting the last slot or appending is exactly what one more report does to the shown list |
| CollectionErrors.ShortenedEntryIsValid | cmd/agent/main.go:666-668 | a shortened entry is well-formed even if the error text is not |
| CollectionErrors.IndexOf | cmd/agent/main.go:702-709 | the first occurrence, or -1 if and only if there is none |
| CollectionErrors.Split | cmd/agent/main.go:688-700 | the pieces joined give the text, no piece holds the separator, every cut is the leftmost |
| RateLimit.CleanupIsInvisible | internal/server/api/ratelimit.go:33-56 | if the burst refills in 600 idle seconds, no run of requests and cleanups is answered differently from one never cleaned |
| RateLimit.CleanupCanShow | internal/server/api/ratelimit.go:33-56 | otherwise some run is |
| RateLimit.RateIsKept | internal/server/api/ratelimit.go:33-56 | over any run and any time span, an address gets at most a burst and what the rate refills in that time, cleanup or not |
| RateLimit.AgentBurstRefills | internal/server/api/api.go:176-178 | the agent limiter's burst always refills |
| RateLimit.Limiter.Allow | internal/server/api/ratelimit.go:33-43 | answers as the whole run of requests demands, and as a table never cleaned would if the burst refills |
| RateLimit.Limiter.Cleanup | internal/server/api/ratelimit.go:45-56 | exactly the addresses idle for more than 600 seconds are forgotten, in any order of the loop |
| RateLimit.Admit | internal/server/api/ratelimit.go:58-84 | exempt paths and administrators pass untouched, others draw on their own limiter only |
| TokenStore.Store.Install | internal/server/api/api_token_store.go:56-71 | the cache becomes the listing, use times of other tokens are forgotten |
| TokenStore.IdsAreListed | internal/server/api/api_token_store.go:64-71 | the use times kept are those of the ids in the listing |
| TokenStore.SnapshotOfListing | internal/server/api/api_token_store.go:56-63 | installing a listing of the active tokens gives exactly those, in any order |
| TokenStore.Store.Put | internal/server/api/api_token_store.go:77-84 | one entry set, none for the empty hash |
| TokenStore.Store.Evict | internal/server/api/api_token_store.go:88-95 | one entry removed |
| TokenStore.StoreTakesTheSteps | internal/server/api/api_token_store.go:47-95 | each step of the interleaving model changes the cache as Put, Evict and Install do |
| TokenStore.Store.Lookup | internal/server/api/api_token_store.go:99-114 | the entry of a known non-empty secret if and only if it has no expiry or expires later than now |
| TokenStore.Store.MarkUsed | internal/server/api/api_token_store.go:118-135 | a use is recorded exactly if none is remembered from within the minute |
| TokenStore.UsesAreSpaced | internal/server/api/api_token_store.go:116-135 | recorded uses of a token are a minute apart while every refresh keeps it |
| TokenStore.StepKeepsInv | internal/server/api/api_token_store.go:47-95 | every step of creators, revokers and refreshers keeps: clean hashes agree with the table for all future times, pending reads are faithful but for what changed since |
| TokenStore.RunKeepsInv | internal/server/api/api_token_store.go:47-95 | so does every run |
| TokenStore.QuietRefreshSyncs | internal/server/api/api_token_store.go:47-73 | a refresh nothing overlapped brings any cache into agreement with the table |
| TokenStore.QuietChangeKeepsSync | internal/server/api/users_tokens_handlers.go:266-296 | while no refresh is under way, create then put and revoke then evict keep the agreement if and only if the hash is not the empty one, or its token is of no use |
| TokenStore.OverlappedRefresh | internal/server/api/api_token_store.go:52-63 | after an overlapped refresh a token resolves rightly if and only if it was created and revoked since the read, or neither, or has expired |
| TokenStore.RevokedTokenCanReturn | internal/server/api/api_token_store.go:86-95 | a stale refresh brings a revoked token back |
| TokenStore.NewTokenWorks | internal/server/api/users_tokens_handlers.go:256-275 | a token created while no refresh is under way is found by every later lookup until it expires, and for good if it never does, over every run in which it is not revoked |
| TokenStore.RevokedTokenStaysOut | internal/server/api/users_tokens_handlers.go:282-296 | a token revoked while no refresh is under way is never in the cache again, over every run |
| TokenStore.ActiveMeans | internal/server/db/users_tokens.go:212-231 | a listing holds exactly the tokens that are not revoked and have no expiry or a later one |
| GraphScope.GraphScopeKey | internal/server/api/graph.go:20-32 | the key of the scope and suffix; the caller's slice is only read |
| GraphScope.HashedTextIsCanonical | internal/server/api/graph.go:24-30 | the hashed texts of two id lists are equal if and only if the lists are equal as multisets |
| GraphScope.KeysAreEqualIff | internal/server/api/graph.go:15-32 | keys are equal if and only if the suffixes are and the scopes are the same or exhibit a hash collision |
| GraphScope.EncodeInjective | internal/server/api/graph.go:27-30 | NUL-terminated concatenation loses nothing |
| GraphScope.HexInjective | internal/server/api/graph.go:31 | different digests print differently |
| GraphScope.GraphCache.Get | internal/server/api/response_cache.go:34-45 | an entry exactly if caching is on, it is there and its time has not passed |
| GraphScope.GraphCache.Put | internal/server/api/response_cache.go:47-59 | the entry is set, everything else kept unless the bound was passed |
| GraphScope.GraphCache.Serve | internal/server/api/graph.go:91-105 | the cached value if it is live, else the fetched one, which is then cached; a fetch counts as made exactly on a miss that the source answered; whatever is served was fetched for this scope and endpoint, unless the hash collides |
| AiPolicy.Decide | internal/server/aipolicy/aipolicy.go:84-131 | a suppressing request on a known-exploited finding or one scored 9 or more is never acted on; nothing is in the modes off and suggest; only assisted mode queues; nothing below the confidence threshold |
| AiPolicy.DecideMeans | internal/server/aipolicy/aipolicy.go:80-131 | over the bare request: exactly when it is applied, queued, denied, and denied as critical, where critical includes every spelling of the word in any letter case between blanks |
| AiPolicy.SpellsIff | internal/server/aipolicy/aipolicy.go:80-82 | trimming and folding recognise exactly the spellings of a word |
| AiActions.StepKeepsInv | internal/server/api/ai_actions.go:86-213 | every step of every interleaving keeps: at most one success per approval, claims exclusive, one pending row per subject, everything queued or carried out governed |
| AiActions.EveryRunIsSafe | internal/server/api/ai_actions.go:178-197 | over every run each approval is carried out at most once, a rejected one never, and nothing is carried out on a finding that is known-exploited, scored 9 or more, or rated critical in any spelling |
| AiActions.FindingsChangeOnlyGoverned | internal/server/api/ai_actions.go:48-137 | over every run a finding's triage changes only by a successful execution on that very finding, with the status of the recommendation made, and only if the finding is none of those |
| AiActions.GovernMeans | internal/server/api/ai_actions.go:86-137 | what one suggestion does to findings and approvals, over the bare finding, recommendation and configuration |
| AiActions.SettledForever | internal/server/db/ai_approvals.go:108-142 | a rejected row, or an approved one with no handler left, never changes and is never carried out again |
| AiActions.RevertStrandsIff | internal/server/db/ai_approvals.go:123-129 | a revert leaves its approval approved, settled and never carried out if and only if the statement fails or the subject is queued again; otherwise pending |
| AiActions.VanishStrands | internal/server/api/ai_actions.go:182-200 | a handler that vanishes after its claim strands the approval |
| AiActions.RequeueStrands | internal/server/api/ai_actions.go:121-197 | a run from nothing: queued, claimed, queued again, failed, revert refused, stranded |
| AiActions.RejectionReaches | internal/server/db/ai_approvals.go:131-142 | a rejection reaches the approval it names if and only if the actor's name is its id |
| AiActions.SubjectInjective | internal/server/api/ai_actions.go:122-124 | distinct findings have distinct subjects, if ids hold no separator |
| AiActions.UpsertKeepsOnePending | migrations/064_ai_action_approvals.sql:20-23 | queueing never makes two pending rows of one subject |
| AiActions.DoneMeansCarriedOut | internal/server/api/ai_actions.go:171-200 | "approved" means the queued proposal itself was carried out, once and for the first time |
| AiActions.FailedApproval | internal/server/api/ai_actions.go:191-197 | a failed approval changes no finding and is pending again, or stranded if the revert failed |
| AiActions.Server.ExecuteAIAction | internal/server/api/ai_actions.go:48-84 | only well-formed suppressions change a finding, and only to a suppressing status |
| AiActions.Server.GovernAIAnalysisAction | internal/server/api/ai_actions.go:86-137 | is the Govern step and keeps the invariant; true exactly for a suppression the engine applies and the database takes |
| AiActions.Server.ClaimAIApproval | internal/server/db/ai_approvals.go:101-121 | is the Claim step: only a pending row can be claimed, and hands out its proposal |
| AiActions.Server.RevertAIApproval | internal/server/db/ai_approvals.go:123-129 | is the Revert step, refused if the subject is pending again |
| AiActions.Server.RejectAIApproval | internal/server/db/ai_approvals.go:131-142 | is the Reject step, arguments in the order the code passes them |
| AiActions.Server.HandleApprove | internal/server/api/ai_actions.go:171-200 | claim, execute and on failure revert; keeps the invariant; the reply for every outcome |
| AiActions.Server.HandleReject | internal/server/api/ai_actions.go:202-213 | one Reject step and its reply |
| VersionOrder.VerCmp | web/src/App.tsx:4-18 | the difference of the two versions' keys; NegativeMeansOlder says what its sign means |
| VersionOrder.CompareSegments | web/src/App.tsx:7-11 | the first difference of the number lists, the shorter padded with zeros |
| VersionOrder.StripPreReleaseSuffix | web/src/App.tsx:32-42 | cuts at the leftmost of all marks, then drops separators |
| VersionOrder.PreReleaseRank | web/src/App.tsx:51-59 | the first marker in the list's order that occurs, with its number |
| VersionOrder.VersionOrderIsTotalPreorder | web/src/App.tsx:4-59 | exactly antisymmetric, transitive, and level if and only if the numbers agree up to trailing zeros and so does the pre-release standing |
| VersionOrder.SegmentDiffTransitive | web/src/App.tsx:7-11 | transitive despite the padding, and level only if both steps are |
| VersionOrder.SegmentDiffZero | web/src/App.tsx:7-11 | level if and only if equal up to trailing zeros |
| VersionOrder.BuildMetadataIsIgnored | web/src/App.tsx:22-59 | a version compares as its part before the first plus sign |
| VersionTexts.NegativeMeansOlder | web/src/App.tsx:4-66 | for dotted versions with or without v, epoch, leading zeros and a pre-release part in any letter case: negative if and only if the first differing number is smaller, or, numbers level, the first is a pre-release and the second is not, or has the earlier marker, or the same and a smaller number |
| VersionTexts.PreReleasesInOrder | web/src/App.tsx:20-66 | with the same numbers: dev < snapshot < preview < pre < alpha < beta < rc < release, whatever number follows |
| VersionTexts.DottedReadsBack | web/src/App.tsx:22-25 | the numbers written are the numbers read |
| VersionTexts.SegmentsIgnoreBlanks | web/src/App.tsx:22-25 | blanks around a version do not count for its numbers |
| PackageDb.ParseDpkgStatus | internal/agent/scanner/dpkg.go:25-86 | the packages of the lines before the first whose bytes do not fit the buffer |
| PackageDb.DpkgParseIsHomomorphic | internal/agent/scanner/dpkg.go:53-71 | a blank line separates: the packages are those of the two parts in order |
| PackageDb.DpkgIgnoresFoldedLines | internal/agent/scanner/dpkg.go:60-63 | folded lines anywhere change nothing |
| PackageDb.DpkgIgnoresCarriageReturns | internal/agent/scanner/dpkg.go:53-56 | a file whose lines end in a carriage return reads the same |
| PackageDb.DpkgReadsWhatIsRendered | internal/agent/scanner/dpkg.go:27-71 | reading stanzas rendered with blank lines between them gives their reported packages, in order |
| PackageDb.StanzaReports | internal/agent/scanner/dpkg.go:27-50 | of one stanza, fields in any order among any others: the package with its own name, version, architecture and source, or nothing |
| PackageDb.ByteLengthIsEncoded | internal/agent/scanner/dpkg.go:53-56 | a line is measured by its UTF-8 bytes |
| PackageDb.StatusTestIsExactIff | internal/agent/scanner/dpkg.go:31-36 | a file reads as its "install ok installed" stanzas alone if and only if each stanza is unnamed, unversioned, of that status, or of one without the word "installed" |
| PackageDb.StatusTestIsTooKind | internal/agent/scanner/dpkg.go:34-36 | a half-installed package is reported, and so is one without a status |
| Prelude.ContainsMeans | internal/agent/scanner/dpkg.go:31-36 | a text contains another exactly if it begins somewhere in it |
| PackageDb.CutAtIndex | internal/agent/scanner/dpkg.go:64-69 | cutting at the first colon gives the key and the value |
| PackageDb.SourceNameIsFound | internal/agent/scanner/dpkg.go:88-103 | the source name with or without a version in parentheses |
| PackageDb.ParseApkInstalled | internal/agent/scanner/apk.go:18-74 | the packages of the lines before the first whose bytes do not fit the buffer, which is reported |
| PackageDb.ApkReports | internal/agent/scanner/apk.go:27-49 | of one stanza: the package with its own name, version, architecture and origin, or nothing |
| PackageDb.ApkParseIsHomomorphic | internal/agent/scanner/apk.go:51-72 | a blank line separates here too |
| PackageDb.ApkReadsWhatIsRendered | internal/agent/scanner/apk.go:27-72 | reading stanzas rendered with blank lines between them gives their packages, in order |
| Containment.AcceptsIffUnder | internal/agent/scanner/contain.go:76-88 | for clean absolute paths the text comparison accepts if and only if the root's components begin the path's |
| Containment.WithinRootMeans | internal/agent/scanner/contain.go:58-101 | inside if and only if the scan is of the host or the path resolves under the resolved root; unresolvable if and only if it does not resolve and the scan is not of the host |
| ShellQuote.ShellReadsWhatWasQuoted | internal/server/api/host.go:476-478 | a POSIX shell reads a quoted text as one word, that text, and a list of quoted arguments as those arguments |
| ShellQuote.QuoteReadsBack | internal/server/api/host.go:476-478 | between other words a quoted text adds exactly itself |
| Prometheus.ThreePassesAreOne | internal/server/api/admin.go:767-771 | the three replacements equal a one-pass escape |
| Prometheus.LabelValueReadsBack | internal/server/api/admin.go:767-771 | a scraper reads back the value and resumes right after it |
| Prometheus.WrittenIsFound | internal/server/api/admin.go:763-765 | a TYPE line once written is always found |
| Prometheus.FoundWasWritten | internal/server/api/admin.go:763-765 | among tame lines only a TYPE line of that name is taken for one |
| Prometheus.OneMoreMetric | internal/server/api/admin.go:739-765 | one more metric never types a name again, and its sample comes after a TYPE line if and only if the name has one already or is not announced |
| Prometheus.TypedRun | internal/server/api/admin.go:739-765 | over every run no name is typed twice, and all samples come after their TYPE lines if and only if no metric is misled by what was written before |
| Prometheus.TameRunsAreTyped | internal/server/api/admin.go:739-771 | without a TYPE mark in label values no metric is ever misled |
| Prometheus.LabelMisleads | internal/server/api/admin.go:739-765 | a run of two metrics that leaves a sample without a TYPE line |
| Prometheus.Writer.Promise | internal/server/api/admin.go:739-765 | the same of everything a writer ever produces |
| Prometheus.Writer.WriteMetric | internal/server/api/admin.go:739-761 | the text stays that of the metrics written, in order: each with its sample, and a TYPE line exactly if none is found |
| Prometheus.WriteSample | internal/server/api/admin.go:744-760 | the sample's text with its labels in order |
| PrometheusRead.SampleReadsBack | internal/server/api/admin.go:739-761 | a scraper reads back the name, the labels sorted by name, and the value |
| PrometheusRead.TypeLineText | internal/server/api/admin.go:739-743 | the text of a TYPE line |
| Prometheus.LabelCanPassForTypeLine | internal/server/api/admin.go:763-765 | a label value can pass for a TYPE line of any plain name |
| LangDedupe.DedupeLangPackages | internal/agent/scanner/lang.go:337-349 | in place: the front holds the first package of each key, in order; the rest of the array is untouched |
| LangDedupe.KeyInjective | internal/agent/scanner/lang.go:341 | without NULs, equal joined keys are equal triples |
| LangDedupe.FirstsIsSubsequence | internal/agent/scanner/lang.go:337-349 | what is kept is a subsequence of the input, each the first of its key |
| LangDedupe.DedupeKeepsOnePerTriple | internal/agent/scanner/lang.go:337-349 | no two kept packages share a triple and every triple of the input is kept |

## Left out

Assumptions, each a parameter or a contract:

- Clocks do not run backwards within one limiter; white-space trimming and lower-casing in the login limiter are arbitrary functions.
- JSON: what the agent encodes it can decode; encoding a report does not fail.
- The token bucket starts full and refills continuously in real numbers; looking the bucket up and drawing on it happen at one moment.
- SHA-256 is an arbitrary 256-bit function; sorting is the library's; link resolution and path cleaning are arbitrary functions.
- `rename` is atomic; a write cut short leaves a prefix of the data under the temporary name.
- One statement of the approval table is one step that has no effect if it reports failure, and the partial unique index on pending rows is enforced.

Not modelled:

- LoginLimiter.HandleLogin: the reply for a malformed body, session creation after a successful login, and audit records are not modelled.
- Spool.Agent.Run: system inventory and scanners are reduced to their outcome, a report or none; two agents sharing one spool directory are not modelled.
- Spool.Agent.RunAll: global delivery order across runs is not claimed, a fresh report can overtake spooled ones; nor is progress past a report the server always refuses.
- CollectionErrors.Split: an empty separator, with which the original does not terminate, is excluded.
- CollectionErrors.ErrorList.Append: the list is a value, so two slices sharing one backing array are not modelled.
- PackageDb.ParseDpkgStatus: a file is text, so bytes that are not UTF-8, read errors other than an oversized line, generated identifiers and package URLs are not modelled; the same goes for PackageDb.ParseApkInstalled.
- PackageDb.DpkgReadsWhatIsRendered: values are those with nothing to trim, as the reader trims.
- GraphScope.KeysAreEqualIff: ids are free of NUL, as the original assumes.
- AiPolicy.Decide: confidences and scores are real numbers, so not-a-number is not modelled, and the reason text is left out.
- AiActions.Server.ExecuteAIAction: the summary rebuild, whose failure is only logged, and action types other than triage.suppress are left out.
- AiActions.EveryRunIsSafe: a person applying a suggestion by hand (internal/server/api/vuln_analysis.go:377-407) is a third caller of the executor and not a step; no engine rules on that one.
- VersionOrder.VersionOrderIsTotalPreorder: numbers are unbounded where the browser's lose precision past 2^53, and lower-casing is ASCII.
- Prometheus.Writer.WriteMetric: number formatting is a parameter.
- PrometheusRead.SampleReadsBack: names are those the format allows, without space, brace or equals sign.
- Containment.WithinRootMeans: reading a file after the check, with links changing in between, is not modelled.
- The database beyond the two tables named here, HTTP routing, cookies, password hashing, the matcher, collectors and the user interface.
