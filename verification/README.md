# TDNS: a verified model of its stateful core

TDNS is a DNS forwarder. This project models the parts of it in which several functions have to
keep a promise together, and proves those promises for every input, every run and every
interleaving:

* the **DNS log**: queue, background flush, lifecycle, privacy modes, hourly statistics
  (`DnsLogModel.dfy`, `DnsLogProofs.dfy`, `DnsLogEvents.dfy`, `DnsLogDashboard.dfy`, `Dashboard.dfy`, `DnsLog.dfy`);
* the **serial database writer** and its callers (`SyncExecutor.dfy`, `WriterProofs.dfy`);
* the **browser session store**: single-use codes, CSRF tokens, purging, password logins
  (`BrowserStore.dfy`, `CsrfWindow.dfy`, `BrowserProofs.dfy`, `BrowserAuth.dfy`);
* the **per-client rate limiter** (`ClientLimiter.dfy`, `LimiterProofs.dfy`);
* the **response cache**, its key, and the **request pipeline** with its upstream slots
  (`DnsCache.dfy`, `CacheKey.dfy`, `Labels.dfy`, `Pipeline.dfy`, `UpstreamSlots.dfy`);
* the **tagger** and the **blocklist**, two indexes derived from their sources
  (`Tagger.dfy`, `Blacklist.dfy`).

`Common.dfy`, `Text.dfy` and `Sorting.dfy` hold what they share.

Objects that the program changes in place are classes (`ClientLimiters`, `Executor`, `DNSLog`,
`SessionStore`, `Cache`, `Server`, `TaggerService`, `BlackList`), and its loops are loops. Each
such method is proved to compute, or to take the state to, what a function or predicate on plain
values says; the results over runs are proved about those. What happens concurrently (callers of
the writer, requests holding slots, flushes against lifecycle calls, the halves of a password
login) is a step machine in which any enabled step may come next. Every database transaction, file
access and download takes its outcome as an argument, so failures are part of every run.

Conventions: times are whole nanoseconds and may run backwards unless a theorem asks for more.
Tokens of the rate limiter are counted in billionths, so refilling is exact. HMAC, SHA-256 and
bcrypt are free constructors: two results are equal only for equal inputs.

## What turned out to need a condition

Properties that one would like to hold without exception hold exactly under a condition, which is
stated and proved in both directions:

* For runs of at most `n` clients, forgetting some of them is unnoticeable, and the configured rate
  holds in every window, exactly if an idle client's bucket refills before it is dropped and there
  is an entry for each of the `n`: `UnobservableIff`, `RateBoundedIff`.
* A step puts stored rows at risk of not being in the recorded privacy mode, in some continuation
  in which nothing else goes wrong, exactly if it is the discard of a failed stop overtaken by a
  background flush, or an `Append` of an event in another mode: `RowsAtRiskIff`; a six-step run
  from an empty log: `OvertakenStopBreaksPrivacy`.
* A rotation that deletes rows and then cannot empty the hourly cache keeps the cache right exactly
  if no hour the cache still answers for holds a row older than the cutoff:
  `HalfFailedRotationIsHarmlessIff`; a state in which it does harm:
  `HalfFailedRotationLeavesStaleHours`.
* A login code can be replayed, helped by a purge, exactly if its expiry is not a whole second:
  `ReplayableIffFractional`.
* A CSRF token just returned is accepted exactly if its session held fewer than eight tokens or one
  that ranks behind it: `ReturnedTokenValidatesIff`; a run from the empty store that loses one when
  the clock is set back: `SetBackClockLosesAToken`.
* Stored answers have a positive TTL exactly if the configured lifetime in seconds does not wrap
  to zero in 32 bits: `StoredAnswersAreAlive`.
* A cached entry answers other questions or other labels too, exactly if there are two labels or
  more, or a single one with a comma between two labels in order, or name or labels can be split
  after a dot that a hyphen follows: `TwinIff`, `LabelTwinIff`. Among label lists without such
  commas and splits, keys separate everything: `SameKeyIffSameQuestion`; families of collisions:
  `CommaCollides`, `DotCollides`.
* Decisions of the blocklist after something went wrong are all right exactly under a condition on
  the lists and the file: after a failed replacement of the extra hosts (`FailedHostsStayRightIff`)
  or of the exceptions (`FailedExcludesStayRightIff`), and after a download with several hosts on
  a line (`RefreshDecidesRightIff`, `ReadingsAgreeIff`). Any later reload repairs them
  (`ReloadRepairs`).

## Model

| member | source | states |
|---|---|---|
| LimiterProofs.UnobservableIff | internal/dnsserver/policy.go:179-230 | For every number n of clients, at least one: the limiter decides every run of at most n clients with a nondecreasing clock like one that keeps all buckets forever, if and only if idle timeout times rate covers the burst and n is at most `maxEntries` |
| LimiterProofs.ForgettingIsUnobservable | internal/dnsserver/policy.go:179-217 | With a long enough idle timeout, evicting idle clients changes no allow or deny decision of any run of at most `maxEntries` clients |
| LimiterProofs.RateBoundedIff | internal/dnsserver/policy.go:153-230 | Under exactly the same condition, in every window of every such run no client gets more through than the burst plus rate times the window |
| LimiterProofs.WindowIsBounded | internal/dnsserver/policy.go:179-203 | The same bound, without a condition, for a limiter that keeps every bucket: each window of each run, from any buckets clients can have |
| LimiterProofs.ProbeExceedsTheRate | internal/dnsserver/policy.go:205-217 | With a shorter idle timeout, a client that spends its burst, waits for the timeout and spends another gets more through than that window allows |
| LimiterProofs.CrowdExceedsTheRate | internal/dnsserver/policy.go:191-203 | A client crowded out of the map by `maxEntries` others gets one request more than its burst through in the same instant |
| LimiterProofs.DecisionsAreExact | internal/dnsserver/policy.go:179-203 | With a long enough idle timeout and an entry for each client, a request is refused if and only if since some earlier request of the same client so much has been allowed that one more exceeds the burst plus the refill; a refused request costs nothing |
| LimiterProofs.RefusedIffExhausted | internal/dnsserver/policy.go:179-203 | The same exact decisions for a limiter that keeps every bucket, read off the run alone |
| LimiterProofs.LimiterStaysWellFormed | internal/dnsserver/policy.go:153-230 | Over every run map and list stay in bijection and within the capacity; with a nondecreasing clock the list is sorted by last use |
| LimiterProofs.RemoveExpiredKeepsExactlyTheLive | internal/dnsserver/policy.go:205-217 | Stopping at the first fresh entry from the back leaves exactly the entries that are not idle, anywhere in the map |
| LimiterProofs.OldestIsLeastRecentlySeen | internal/dnsserver/policy.go:219-230 | A capacity eviction removes one client, and nobody was seen before it |
| ClientLimiter.ClientLimiters.Allow | internal/dnsserver/policy.go:179-203 | In place: drop idle entries, then take from the client's bucket or from a new full one, making room first; the state and answer of the limiter model |
| ClientLimiter.ClientLimiters.RemoveExpired | internal/dnsserver/policy.go:205-217 | The eviction loop reaches the model's state and keeps map and list in bijection |
| ClientLimiter.ClientLimiters.RemoveOldest | internal/dnsserver/policy.go:219-223 | Removes the entry at the back, if any |
| SyncExecutor.Executor.SyncExecBulk | syncsqlite/syncsqlite.go:105-134 | All statements that are not nil become durable in order, or none does; success without faults; no transaction is left open |
| SyncExecutor.Executor.SyncExec | syncsqlite/syncsqlite.go:54-96 | Everything queued and then the caller's statement becomes durable, or nothing; the queue is empty either way |
| SyncExecutor.Executor.BulkAdd | syncsqlite/syncsqlite.go:202-211 | Appends to the queue when there is room, otherwise the caller has to wait |
| SqlConnection.PresentIsAll | syncsqlite/syncsqlite.go:114-123 | Skipping nil statements keeps all others in order |
| WriterProofs.ControlKept | syncsqlite/syncsqlite.go:55-200 | Every step keeps: at most one caller between lock and unlock, and it and the writer at matching points of the handshake |
| WriterProofs.AnswerReachesItsCaller | syncsqlite/syncsqlite.go:145-158 | Whoever receives from the response channel is the caller whose statement is being answered |
| WriterProofs.ExecuteMatches | syncsqlite/syncsqlite.go:55-134 | Running a caller's statement leaves the transaction its next statement expects, and makes its batch durable exactly at a successful commit or lone statement |
| WriterProofs.DatabaseKept | syncsqlite/syncsqlite.go:55-200 | Every step keeps: durable statements are those of the batches reported successful plus at most one batch whose caller has not returned yet |
| WriterProofs.LoggedKept | syncsqlite/syncsqlite.go:55-200 | Every step keeps: the writer has seen whole transaction blocks and lone statements, never interleaved |
| WriterProofs.ConservedKept | syncsqlite/syncsqlite.go:55-75 | Every step keeps: each added statement is in exactly one place, in order of arrival, and the channel is within its capacity |
| WriterProofs.EveryRunIsSound | syncsqlite/syncsqlite.go:55-211 | All four invariants hold after every interleaving of any number of callers |
| WriterProofs.ReportsMatchTheDatabase | syncsqlite/syncsqlite.go:55-211 | After every interleaving: durable content, writer log and bulk statements are what the reports say; with the lock free, exactly |
| WriterProofs.ReturnTellsTheTruth | syncsqlite/syncsqlite.go:55-134 | A caller told of success finds its whole batch as the end of the durable statements; one told of failure finds nothing of it |
| WriterProofs.HolderOrWriterCanMove | syncsqlite/syncsqlite.go:145-200 | While the mutex is held, its holder or the writer can take a step: no deadlock |
| WriterProofs.StepAdvances | syncsqlite/syncsqlite.go:55-200 | Once the holder has drained the channel, each step of holder or writer brings the release of the mutex nearer, and no step of anybody else delays it |
| WriterProofs.ReleasedInTime | syncsqlite/syncsqlite.go:55-200 | From then on, whatever others do, the mutex is released within ten steps of holder and writer and three for each statement of the batch |
| WriterProofs.DrainingCanGoOn | syncsqlite/syncsqlite.go:59-70 | Draining itself has no bound: another caller that keeps adding can keep the holder draining for any number of rounds |
| DnsLogPrivacy.RowsAtRiskIff | middleware/dnslog_lifecycle.go:45-109 | From any state of a run so far respectful: some respectful continuation after a step ends with a stored row not in the recorded mode, if and only if the step is an overtaken discard or appends an event in another mode |
| DnsLogPrivacy.PrivateKeptIffRespectful | middleware/dnslog_privacy.go:148-214 | The inductive step: every respectful step keeps the invariant that implies the promise about rows, and no other step does |
| DnsLogPrivacy.StoredRowsAreInTheRecordedMode | middleware/dnslog_lifecycle.go:45-109 | From any consistent tables, after a restart and any such run: each row is in exactly the recorded modes and key, a running log needs no clear, a stopped log holds no events |
| DnsLogPrivacy.PrivateThroughout | middleware/dnslog_lifecycle.go:45-109 | The privacy invariant over whole runs |
| DnsLogPrivacy.ConfigurePrivacyKeepsRows | middleware/dnslog_privacy.go:148-214 | New settings are recorded only if the stored rows already satisfy them; no other table changes |
| DnsLogPrivacy.ClearIsNeededIff | middleware/dnslog_privacy.go:186-192 | A clear is demanded exactly when some stored row is not in the mode and key asked for; without rows, exactly when stored aliases change client mode or key |
| DnsLogPrivacy.NewEventMatches | middleware/dnslog.go:222-249 | An event made from a message is in the mode of the running process |
| DnsLogEvents.OneEventPerMessage | middleware/dnslog.go:147-249 | An enabled log that needs no clear takes exactly one event for a message with a question and an address: at the time given, with the blocked value of the message, its peer as client, and the first answer's name on success with an answer, otherwise the question, as domain; in every other case nothing changes |
| DnsLogEvents.LoggedMessageIsCounted | middleware/dnslog.go:147-477 | Logged and flushed, such a message is one row more than without it, counted once in its hour, and as blocked exactly if the message was |
| DnsLogEvents.LastRow | middleware/dnslog.go:463-469 | The row of an event carries its content, at the event's time if that is later than all keys used and one past the last key otherwise, and raises the counts of its hour only |
| DnsLogEvents.AliasMeetsItsEvents | middleware/dnslog.go:284-298 | An alias is stored under the very text that events from the same address carry |
| DnsLogEvents.AliasClients | middleware/dnslog_privacy.go:246-259 | Addresses are stored as events carry them, earlier tokens as they are and under pseudonymisation only, anything else not at all |
| DnsLogEvents.StartTurnsOn | middleware/dnslog_lifecycle.go:45-53 | A start turns logging on exactly if no clear is required, and changes nothing else |
| DnsLogEvents.RestartWorksAsConfigured | middleware/dnslog.go:527-550 | A configured restart logs exactly if asked to and no clear is required, under the settings asked for, and leaves all tables but the recorded settings alone |
| DnsLogEvents.ConfigurationFailsIff | middleware/dnslog_privacy.go:148-214 | Settings cannot be put in force exactly if a key is needed and missing, the database cannot be read, or it cannot record settings that fit the stored rows; then a restart changes nothing |
| DnsLogEvents.StopTurnsOff | middleware/dnslog_lifecycle.go:55-64 | After a stop, failed or not, logging is off and nothing is queued; a successful one has stored everything queued |
| DnsLogEvents.ClearMakesRoom | middleware/dnslog_lifecycle.go:81-109 | A successful clear leaves no rows, aliases or cached hours, starts the keys anew, records the settings in force and lets logging start |
| DnsLogEvents.RotationOutcomes | middleware/dnslog.go:562-587 | A rotation removes exactly the rows older than its cutoff and empties the cache of hours, touches nothing else, and nothing at all when the deletion fails |
| DnsLogEvents.FailuresKeepTables | middleware/dnslog_lifecycle.go:55-109 | No failed transaction leaves a trace in the tables |
| DnsLogEvents.RunningIsLeftAlone | middleware/dnslog_lifecycle.go:66-88 | While logging, neither a clear nor a change of settings does anything |
| DnsLogEvents.LoadWritesIff | middleware/dnslog_dashboard.go:146-195 | Loading the history writes exactly if logging is on and some hour of the window is not cached, and then the whole window; a refresh always writes |
| DnsLogPrivacy.OvertakenStopBreaksPrivacy | middleware/dnslog_lifecycle.go:55-64 | A run in which a flush between a failed stop's flush and its discard later stores plain rows under HMAC mode |
| DnsLogQueue.EventsAreConserved | middleware/dnslog.go:182-193 | On every run without restart, discard or clear of a nonempty queue: held plus accepted events equal persisted plus held events, as sequences |
| DnsLogQueue.StepConserves | middleware/dnslog.go:449-477 | The same for one step, a failing flush with appends in between included |
| DnsLogQueue.InsertAllAppends | middleware/dnslog.go:463-469 | Inserting events appends one row each with their content, with keys positive, strictly increasing and not before the event's time, whatever the clock says |
| DnsLogQueue.NewerIsSuffix | middleware/dnslog.go:574-576 | Deleting rows older than a cutoff removes exactly a prefix |
| DnsLogQueue.RowsAreASuffixOfThePersisted | middleware/dnslog.go:449-617 | Over every run keys stay strictly increasing and the rows are the persisted events in order, without a prefix |
| DnsLogQueue.StepKeepsOrder | middleware/dnslog.go:449-617 | The same for one step |
| Dashboard.GroupedIsHourCounts | middleware/dnslog_dashboard.go:40-49 | The grouping query gives each hour of the window its number of rows and of blocked rows, zero for hours without a group |
| Dashboard.QueryBuckets | middleware/dnslog_dashboard.go:68-79 | The loop over groups yields every hour of the window in order with what the log holds for it |
| Dashboard.BucketsPartitionTheWindow | middleware/dnslog_dashboard.go:27-80 | The summary total is the number of rows in the window, and blocked plus allowed is that total |
| Dashboard.BucketsConcatenate | middleware/dnslog_dashboard.go:37-80 | Adjacent windows concatenate |
| Dashboard.HourInWindow | middleware/dnslog_dashboard.go:47-60 | A row is inside the nanosecond bounds of a window exactly if its hour is one of the window's |
| Dashboard.CompleteIffCovered | middleware/dnslog_dashboard.go:82-115 | The completeness test on the rows read succeeds exactly if every hour of the window is cached |
| Dashboard.CacheComplete | middleware/dnslog_dashboard.go:105-115 | The loop decides completeness |
| Dashboard.SummaryOf | middleware/dnslog_dashboard.go:27-35 | The loop adds up totals, blocked and allowed queries |
| Dashboard.UpsertContiguous | middleware/dnslog_dashboard.go:117-137 | Writing consecutive hours gives those hours the new counts and leaves all other hours alone |
| Dashboard.HistoryIsTheLog | middleware/dnslog_dashboard.go:146-173 | If cached hours agree with the log, the history is the direct query of its 23 hours |
| Dashboard.StatsAreTheLog | middleware/dnslog_dashboard.go:231-257 | Under the same condition every statistics request, the cached 24 hour one included, is answered as if the log had been queried directly |
| Dashboard.StatsAnswerTheRequest | middleware/dnslog_dashboard.go:231-257 | A request for 1 to 336 hours is answered with one point for each of so many hours up to the current one, for fewer with 24, for more with 336; blocked and allowed add up to the total, which is the rows of that time |
| Dashboard.HourBucketHolds | middleware/dnslog_dashboard.go:19-21 | The current hour is the one that holds the moment asked at |
| DnsLogDashboard.CachedHoursEqualTheLog | middleware/dnslog_dashboard.go:105-200 | Over every run, failures included: a cached hour not inserted into, and not hit by a half-failed rotation, since it was computed equals the raw count |
| DnsLogDashboard.TruthfulKept | middleware/dnslog_dashboard.go:105-200 | The same for one step, also between a computation's query and its write |
| DnsLogDashboard.WriteLeavesTheWindow | middleware/dnslog_dashboard.go:117-144 | After a successful write the cached hours are exactly the 23 of the window |
| DnsLogDashboard.RefreshCleansTheLastHour | middleware/dnslog_dashboard.go:175-195 | Whatever commits between the query and the write of a refresh: exactly the 23 hours before the current one are cached, and the last equals the log unless rows of it changed since the query |
| DnsLogDashboard.ChangedIsExact | middleware/dnslog.go:449-477 | A step that leaves the cache alone changes the counts of exactly the hours it inserts into or half-rotates, and of no other |
| DnsLogDashboard.CacheStaysTrueIff | middleware/dnslog.go:449-617 | Such a step leaves the cache right exactly if it changes no hour the cache still answers for |
| DnsLogDashboard.HalfFailedRotationIsHarmlessIff | middleware/dnslog.go:574-587 | A rotation that deletes and then fails to empty the cache leaves it right exactly if every row older than the cutoff is in an hour the cache does not answer for |
| DnsLogDashboard.HalfFailedRotationLeavesStaleHours | middleware/dnslog.go:574-587 | One state in which it makes a cached hour wrong |
| DnsLog.DNSLog.ConfigurePrivacy | middleware/dnslog_privacy.go:148-214 | In place: the settings step of the state machine, or no change on an error |
| DnsLog.DNSLog.Config | middleware/dnslog.go:527-550 | A restart over existing tables: enabled only if no clear is required |
| DnsLog.DNSLog.Run | middleware/dnslog.go:147-171 | Logging a message is the state machine's step; nothing is logged when disabled or when a clear is required |
| DnsLog.DNSLog.Append | middleware/dnslog.go:173-180 | A ready-made event is queued as it is, if logging is enabled |
| DnsLogQueue.FlushAroundArrivals | middleware/dnslog.go:449-477 | A flush with events arriving between its halves leaves everything as if it had not been tried when it fails, and as if it had come before the arrivals when it succeeds |
| DnsLog.DNSLog.CompleteInsert | middleware/dnslog.go:462-476 | Second half: one row per event in one transaction, or all events back in front of later ones |
| DnsLog.DNSLog.DoInsert | middleware/dnslog.go:449-477 | A whole flush empties the queue into the table or changes nothing |
| DnsLog.DNSLog.StartLogging | middleware/dnslog_lifecycle.go:45-53 | Refused while a clear is required |
| DnsLog.DNSLog.StopLogging | middleware/dnslog_lifecycle.go:55-64 | Stops and flushes; on a failed flush the two steps of a failed stop |
| DnsLog.DNSLog.SetPseudonymization | middleware/dnslog_lifecycle.go:66-73 | Refused while running, otherwise the settings step |
| DnsLog.DNSLog.Clear | middleware/dnslog_lifecycle.go:81-109 | Refused while running; otherwise the queue goes, and all tables in one transaction or none |
| DnsLog.DNSLog.Rotate | middleware/dnslog.go:562-587 | Removes exactly the rows older than the cutoff, a prefix, and reports their number |
| DnsLog.DNSLog.AddAlias | middleware/dnslog.go:284-298 | Stores the alias under the transformed client, or fails for an unusable one |
| DnsLog.DNSLog.WritePoints | middleware/dnslog_dashboard.go:117-144 | The write statements, one by one, amount to the cache write |
| DnsLog.DNSLog.LoadDashboardHistoryAt | middleware/dnslog_dashboard.go:146-173 | Query and, when needed and logging, write; the answer is the history whatever the write path |
| DnsLog.DNSLog.RefreshDashboardCacheAt | middleware/dnslog_dashboard.go:175-195 | The query and write steps of a refresh |
| DnsLog.DNSLog.GetDashboardStatsAt | middleware/dnslog_dashboard.go:202-257 | Answers with the points of the clamped window and their summary; the 24 hour request leaves the state a history query and write leave, any other touches nothing |
| BrowserFrames.SessionFrame | internal/browserauth/store.go:100-404 | Over all operations: a stored session was just created, just given one more token, or differs from before in its last use only |
| BrowserFrames.AdministratorFrame | internal/browserauth/password.go:72-139 | Only setting and disabling change the administrator, and they leave no password session |
| SessionLifetime.RedeemingSucceedsIff | internal/browserauth/store.go:100-174 | Exactly which codes open a session: for a browser, with an identifier not used before, a subject and a known scope, before their expiry, and with an allowed lifetime that reaches the next second |
| SessionLifetime.RedeemingOpensASession | internal/browserauth/store.go:98-229 | A redeemed code is used up and no other is; it opens one session for its subject with its scope and the persistence asked for, found exactly until now plus its lifetime, rounded down to a second, with one valid token and the errors that say why not; other sessions answer as before |
| SessionLifetime.LoginSucceedsIff | internal/browserauth/password.go:208-245 | Exactly when a login that compared equal opens a session: the credential is still the one compared and the lifetime is allowed |
| SessionLifetime.LoginOpensASession | internal/browserauth/password.go:213-245 | A committed login opens such a session for the administrator, with write access, while the credential is still the one compared |
| SessionLifetime.BlankSecretsOpenNothing | internal/browserauth/store.go:231-350 | Without a session identifier, or without a token, nothing succeeds and nothing changes |
| SessionLifetime.IssuingSucceedsIff | internal/browserauth/store.go:342-404 | A token is issued exactly for a live session that does not hold it; it is stored with its time, and nothing but the session's tokens changes |
| SessionLifetime.TouchingChangesNoAnswer | internal/browserauth/store.go:260-281 | Touching succeeds exactly for a live session, records the second, and never prolongs one |
| SessionLifetime.RevokingClosesOne | internal/browserauth/store.go:283-289 | Revoking closes that session and no other |
| PasswordSessions.PasswordSessionsAreCurrent | internal/browserauth/password.go:184-259 | Under every interleaving of two-phase logins with password changes: each stored password session was authenticated with exactly the username and hash enabled now |
| PasswordSessions.OnlyTheSetPasswordOpensASession | internal/browserauth/password.go:72-139 | After setting a password exactly that password and username, in any spelling, pass the comparison; after disabling none does |
| PasswordSessions.RotationDefeatsAnEarlierRead | internal/browserauth/password.go:229-237 | A login that compared against the old hash cannot commit after a password change |
| PasswordSessions.NameIsAcceptedIff | internal/browserauth/password.go:43-59 | Accepted user names are exactly the spellings, in any case and with white space around, of one to 64 lower-case letters, digits, dots, underscores and hyphens with a letter or digit at either end |
| PasswordSessions.SettingSucceedsIff | internal/browserauth/password.go:72-111 | A password is set exactly for an accepted name and 12 to 72 bytes of UTF-8; then the administrator has that name, and exactly the sessions opened with a code stay |
| PasswordSessions.DisablingSucceedsIff | internal/browserauth/password.go:113-139 | The administrator is disabled exactly if there is one; then no credential is usable and exactly the sessions opened with a code stay |
| PasswordSessions.LoginsThatCompareEqual | internal/browserauth/password.go:187-207 | Exactly the spellings of the name with exactly the bytes of the password compare equal |
| PasswordSessions.CredentialIff | internal/browserauth/password.go:149-182 | There is a usable credential exactly for an enabled administrator of an accepted name, with write access to itself and a hash of cost 12 |
| PasswordSessions.ValidNameIsNormal | internal/browserauth/password.go:43-59 | A valid administrator name normalises to itself |
| CsrfWindow.TrimBounds | internal/browserauth/store.go:381-399 | At most eight tokens survive the trimming, whatever their times |
| CsrfWindow.NewTokenSurvivesIff | internal/browserauth/store.go:371-399 | Added to at most eight others, a token survives the trimming exactly if there was room or one of the others ranks behind it |
| CsrfHistory.ReturnedTokenValidatesIff | internal/browserauth/store.go:291-404 | After any run, a token IssueCSRF returns validates while its session lives exactly if the session held fewer than eight tokens or one ranking behind it |
| CsrfHistory.SetBackClockLosesAToken | internal/browserauth/store.go:291-404 | From the empty store: eight issues and one by a clock set back, after which the token just returned is rejected |
| CsrfWindow.IssueMovesTheWindow | internal/browserauth/store.go:371-399 | With increasing times the stored tokens move from the last eight issues to the last eight including the new one |
| CsrfHistory.NeverMoreThanEightTokens | internal/browserauth/store.go:201-404 | Over every run no session holds more than eight tokens |
| CsrfHistory.ValidTokensAreTheLastEight | internal/browserauth/store.go:291-404 | With increasing issue times a token validates exactly while its session lives and it is among the last eight issued, the initial one counted |
| CsrfHistory.RevokedTokensStayInvalid | internal/browserauth/store.go:283-340 | No token of a removed session validates again over any run that does not draw its identifier anew |
| Purging.PurgingIsUnobservable | internal/browserauth/store.go:406-436 | With a nondecreasing clock and whole-second codes, removing any expired rows at any moments changes the success of no operation of any run |
| Purging.BoundedPurgesAreUnobservable | internal/browserauth/store.go:406-436 | The same for the purges the store makes, at any moments and with any limits |
| Purging.GenerousPurgeLeavesTheLive | internal/browserauth/store.go:406-436 | A purge with room for all expired rows leaves exactly the sessions and codes that are still live, unchanged |
| Purging.CodesAreSingleUse | internal/browserauth/store.go:98-157 | Under the same conditions a code is redeemed at most once over any run, purges included |
| Purging.ReplayableIffFractional | internal/browserauth/store.go:127-145 | A code can be redeemed twice in some run exactly if its expiry is not a whole second |
| BrowserAuth.SelectExpired | internal/browserauth/store.go:422-436 | At most `limit` rows, all expired, none later than one left behind, and fewer than `limit` only if no expired row is left |
| BrowserAuth.SessionStore.RedeemCode | internal/browserauth/store.go:98-157 | In place: the redeeming transaction, with its errors in order and no change on failure |
| BrowserAuth.SessionStore.InsertSession | internal/browserauth/store.go:201-229 | Adds a session unless a table constraint refuses it |
| BrowserAuth.SessionStore.GetSession | internal/browserauth/store.go:231-258 | The stored session, or not found, or expired |
| BrowserAuth.SessionStore.TouchSession | internal/browserauth/store.go:260-281 | Updates the last use of a live session only |
| BrowserAuth.SessionStore.RevokeSession | internal/browserauth/store.go:283-289 | Removes the session with its tokens |
| BrowserAuth.SessionStore.ValidateCSRF | internal/browserauth/store.go:291-340 | The loop that compares every stored hash decides membership |
| BrowserAuth.SessionStore.IssueCSRF | internal/browserauth/store.go:342-404 | Inserts and trims in one transaction |
| BrowserAuth.SessionStore.PurgeExpired | internal/browserauth/store.go:406-420 | Removes a bounded choice of expired rows from each table and nothing else |
| BrowserAuth.SessionStore.SetAdministratorPassword | internal/browserauth/password.go:72-111 | Replaces the credential and drops all password sessions, or changes nothing |
| BrowserAuth.SessionStore.DisableAdministrator | internal/browserauth/password.go:113-139 | Disables the credential and drops all password sessions, or fails without one |
| BrowserAuth.SessionStore.CreatePasswordSession | internal/browserauth/password.go:184-246 | Both halves with nothing in between: compare, then re-read and commit |
| DnsCacheProofs.HitsServeTheLastResponse | middleware/cache.go:172-292 | On every run of stores, lookups, clears and arbitrary evictions, and for every clock: an entry answers the request at hand with the last response stored under the key, each answer with min(original, cap) minus its age; it is served exactly while it has not aged or every answer has time left |
| DnsCacheProofs.EntriesAreTheLastStored | middleware/cache.go:172-201 | Whatever is in the backend is the capped last successful store under its key |
| DnsCacheProofs.ServedWithRemainingTime | middleware/cache.go:221-253 | A reply at any age takes identifier, flags and question from the request; up to the second of storing the sections are those stored, later every answer has its remaining time and the other sections exactly the live records |
| DnsCacheProofs.OneKeyAtATime | middleware/cache.go:66-82 | Storing and looking up touch no other key; a miss leaves nothing under its key, a hit leaves everything |
| DnsCacheProofs.JustStoredIsServed | middleware/cache.go:172-253 | What has just been stored is served to any lookup within the same second, with its capped TTLs |
| DnsCacheProofs.SectionsAreCapped | middleware/cache.go:255-267 | All three sections are capped at the lifetime in minutes times sixty, in 32 bits, and nothing else changes |
| DnsCacheProofs.AdjustedKeepsTheLive | middleware/cache.go:269-292 | Where not all records are required, exactly those with time left are kept, reduced by the age |
| DnsCacheProofs.AdjustedAll | middleware/cache.go:269-292 | Where all are required, the section is usable exactly if every record is present and has time left |
| DnsCacheProofs.StoredAnswersAreAlive | middleware/cache.go:172-219 | Stored answers have positive TTLs exactly if the cap does not wrap to zero |
| DnsCacheProofs.CapVanishesIff | middleware/cache.go:182-184 | The 32-bit cap is zero exactly for multiples of 2^30 minutes |
| DnsCache.CapSectionTTLs | middleware/cache.go:261-267 | In place: no TTL above the cap, records otherwise unchanged |
| DnsCache.CacheableAnswers | middleware/cache.go:203-219 | True exactly if every answer is a present A, AAAA or CNAME record with a positive TTL |
| DnsCache.AdjustSectionTTLs | middleware/cache.go:269-292 | The loop computes the reduced section |
| DnsCache.Cache.Set | middleware/cache.go:172-201 | Stores the capped copy, or nothing |
| DnsCache.Cache.Lookup | middleware/cache.go:55-90 | A disabled or bypassed lookup and an entry that cannot be decoded change nothing; otherwise an entry is served, or deleted when used up, as the model says |
| DnsCache.Cache.Respond | middleware/cache.go:221-253 | The reply made from an entry |
| CacheKey.SameKeyIff | middleware/cache.go:294-302 | For names ending in a dot and any labels: equal keys exactly for equal type and class and either equal name and fingerprint, or one name continuing into the labels of the other |
| CacheKey.SameKeyIffSameQuestion | middleware/cache.go:294-302 | For labels without a comma and without a dot followed by a hyphen: equal keys exactly for equal type, class, name and set of trimmed nonempty labels |
| CacheKey.TwinIff | middleware/cache.go:294-302 | A question and its labels share a key with another question or another set of labels exactly if there are two labels or more, or a single one with a comma between two labels in order, or labels or name can be split after a dot that a hyphen follows, leaving trimmed text |
| CacheKey.LabelTwinIff | middleware/labels.go:87-93 | A label list shares its fingerprint with another set of labels exactly if it holds two labels or more, or a single one with a comma between two labels in order |
| CacheKey.FingerprintIffTrimmed | middleware/labels.go:87-93 | Text is the fingerprint of some label list exactly if it is trimmed |
| CacheKey.FingerprintIffSameLabels | middleware/labels.go:87-93 | Between two label lists without commas in labels: equal fingerprints exactly for equal label sets |
| CacheKey.CommaCollides | middleware/labels.go:87-93 | A label with a comma shares the key of the two labels it separates |
| CacheKey.DotCollides | middleware/cache.go:294-302 | A family of such splits: a label of a dotted part, a hyphen and a rest shares the key of a longer name |
| Labels.NormalizeLabelsIsTheSet | middleware/labels.go:15-26 | Exactly the trimmed nonempty labels, sorted, each once |
| Labels.NormalizedEqualIffSameSet | middleware/labels.go:15-26 | Order and duplicates never matter, and nothing else is lost |
| Labels.Normalize | middleware/labels.go:15-26 | The loop and the sort compute that list |
| Labels.MatchesAnyLabel | middleware/labels.go:68-78 | True exactly if the lists share an element |
| UpstreamSlots.SlotsAreConserved | server/server.go:117-185 | For every interleaving of requests and every exit: occupied slots are the calls between acquire and release, never above the limit; a finished call returned each slot it took, at most one; no release waits |
| UpstreamSlots.InvKept | server/server.go:256-269 | The same for one step |
| UpstreamSlots.ErrorsLeaveAtOnce | server/server.go:138-167 | A call that fails goes past the post-routing middlewares: without a slot it is over, otherwise the deferred function gives the slot back |
| UpstreamSlots.AnswersLeaveThroughPostRouting | server/server.go:138-184 | A call answered outside gives its slot back before post-routing and the deferred function then gives nothing; one answered before routing never takes a slot |
| UpstreamSlots.QuietMeansFree | server/server.go:117-185 | When all calls have finished no slot is occupied |
| MiddlewareOrder.IndexIsDetermined | server/server.go:43-108 | The index is the same for every iteration order of the map |
| MiddlewareOrder.IndexListsEachStage | server/server.go:43-108 | Each stage lists exactly its middlewares, in rank order, ties by name |
| MiddlewareOrder.RankedComeInOrder | server/server.go:77-108 | Tagger, status, blacklist, zen mode, static responses and the cache come in that order before all others, as do cache set and log after routing |
| MiddlewareOrder.Server.GetIndexes | server/server.go:43-64 | Computed once by the loop and kept; equal to the index for any iteration order |
| Pipeline.BlockedQueriesTouchNothing | server/server.go:117-185 | A query the blacklist blocks and status did not answer takes no slot and touches neither cache nor upstream |
| Pipeline.BlockedStopsTheChain | middleware/blacklist.go:112-127 | In rank order nothing with an effect runs before the blacklist |
| Pipeline.WhatIsWrittenToTheCache | middleware/cache.go:109-129 | A cache hit is never stored again; a local answer is stored exactly if the client itself had set the response bit on a successful header, the question has a key, the answer can be stored and the cache was usable |
| Pipeline.AnsweredBeforeRouting | server/server.go:117-137 | A request some pre-routing middleware answers gets the answer of the first in rank; nothing takes a slot, and neither stub nor upstream is asked |
| Pipeline.AnsweredByResolving | server/server.go:138-206 | Any other request ends without an answer exactly if no slot is free, a registered stub fails, or no registered stub answers and the upstream does not either; the upstream is asked exactly if a slot was free and no registered stub answered or failed; the answer is the stub's if it answered and the upstream's otherwise |
| Pipeline.AskedWithASlot | server/server.go:138-168 | Stub and upstream are asked while the slot is held, and nothing is stored or logged before it is given back |
| Pipeline.LoggedIffAnswered | server/server.go:170-184 | With the log registered, exactly the answered requests are logged |
| Pipeline.OutsideAnswersAreStoredIff | middleware/cache.go:109-129 | An answer from outside is stored exactly if it is a successful reply with answers to a question with a key, it can be stored, and the cache is usable |
| Pipeline.ProcessRequest | server/server.go:117-206 | A request has the modelled answer and effects on every way out |
| Pipeline.RunPreRouting | server/server.go:126-137 | The loop runs middlewares in order until one has resolved the message |
| Pipeline.RunPostRouting | server/server.go:170-179 | The loop runs every middleware on the resolved message |
| TagStore.TablesStayWellFormed | syncsqlite/tagger_store.go:179-384 | Over any sequence of mutations no link dangles and every stored name is trimmed and nonempty |
| TagStore.StatementsApply | syncsqlite/tagger_store.go:179-384 | In one transaction the statements of an accepted operation are never refused by a key or foreign key, and together have exactly the described effect on all three tables |
| TagStore.BuildAdd | syncsqlite/tagger_store.go:191-228 | The loop with its set of seen addresses builds the statements for the trimmed nonempty addresses, each once; none for an empty list |
| TagStore.BuildReplace | syncsqlite/tagger_store.go:243-277 | The loop builds a cascading delete and, if labels remain, the member, each label and each link |
| TagStore.CreateAddsALabel | syncsqlite/tagger_store.go:179-189 | Creating a label adds that label, trimmed, and changes nothing else |
| TagStore.BlankNamesAreRefused | syncsqlite/tagger_store.go:179-384 | Operations reach the database exactly if the names they need hold more than white space |
| TagStore.LabelSetMeans | syncsqlite/tagger_store.go:230-241 | A list of names stands for exactly those with anything in them, without the white space around |
| TagStore.AddAddsExactly | syncsqlite/tagger_store.go:191-228 | The statements of an addition link exactly the listed members to the label and create what is missing |
| TagStore.ReplaceSetsExactly | syncsqlite/tagger_store.go:243-277 | The statements of a replacement leave the member with exactly the labels asked for, delete a member without any, and change no other member |
| TagStore.RemoveUndoesAdd | syncsqlite/tagger_store.go:279-301 | The statements of an addition and then of a removal take back exactly one link, and the member once it has none left |
| TagStore.DeleteRemovesOwnLinks | syncsqlite/tagger_store.go:368-384 | The delete statements cascade to the links of that member or label and to no others |
| Tagger.GroupRows | syncsqlite/tagger_store.go:134-173 | The row loop yields one group per address, each with all its labels in row order |
| Tagger.BuildMatchers | middleware/tagger.go:204-222 | The loop builds indexes that know exactly the groups given |
| Tagger.BuiltInSync | middleware/tagger.go:198-228 | Indexes built from the rows say exactly what the links say |
| Tagger.FoundIsDeserved | middleware/tagger.go:230-253 | Looking in both indexes finds exactly the labels linked to the equal member or to a network containing the address |
| Tagger.Lookup | middleware/tagger.go:230-253 | The lookup returns exactly those labels, sorted, each once |
| Tagger.TaggerService.RefreshMatchers | middleware/tagger.go:198-228 | Publishes indexes that match the tables, or leaves the old ones when reading fails |
| Tagger.TaggerService.RunTransaction | syncsqlite/syncsqlite.go:105-134 | All statements take effect, or none when one is refused or the database fails |
| Tagger.TaggerService.Mutate | middleware/tagger.go:99-189 | The tables change exactly if the operation is accepted and written; success of anything but a new label leaves matching indexes; a new label leaves the indexes as matching or as stale as they were |
| Tagger.TaggerService.LookupLabels | middleware/tagger.go:230-253 | With matching indexes, exactly the labels the tables give a client |
| Selectors.NormalizeDomainIff | middleware/blacklist.go:531-534 | Exactly which values are the same name: those that spell it in any case, with white space around it, with or without one final dot |
| Selectors.ExemptIff | middleware/labels.go:28-56 | Parsed domains exempt exactly the names that end in the name of some value that is no label |
| Selectors.SharedLabelIff | middleware/labels.go:28-78 | Parsed labels meet a client's exactly if some value writes one of them after `label:` |
| Selectors.NormalizeValuesMeans | middleware/labels.go:58-66 | A normalised list holds exactly the names its values spell and the labels they write |
| Selectors.ParseMeans | middleware/labels.go:28-56 | Parsing keeps exactly the domains and labels the values name |
| Selectors.ParseSelectors | middleware/labels.go:28-56 | The loop and sorts compute the parsed rules |
| Selectors.MatchesSuffix | middleware/blacklist.go:553-560 | True exactly if some suffix ends the name |
| Blocklist.BuildHole | middleware/blacklist.go:279-358 | The tree holds exactly the names of file and extra hosts that no exception covers; a strict reading succeeds exactly for a valid list |
| Blocklist.AddLine | middleware/blacklist.go:319-343 | The host loop of one line adds exactly its names and rejects exactly what a strict reading must |
| Blocklist.AddFileLine | middleware/blacklist.go:295-344 | One line, comments and short lines included, extends what has been read by exactly its names |
| Blocklist.AddExtra | middleware/blacklist.go:351-356 | Extra hosts join unless empty or exempt |
| Blocklist.HostsOfALine | middleware/blacklist.go:301-322 | A line lists the fields after its address, up to one that starts a comment |
| Blocklist.NamedFirstIff | middleware/blacklist.go:301-344 | A file names exactly what the second field of some line spells, when neither that field nor the first starts a comment |
| Blocklist.ReadingsAgreeIff | middleware/blacklist.go:312-318 | Strict and lenient reading name the same hosts exactly if further hosts of a line are first hosts of some line |
| Blacklist.BlockedIffListed | middleware/blacklist.go:77-131 | After any sequence of operations with successful reloads: blocked exactly if enabled, the name is in the file or among the extra hosts, and no suffix or label exempts it |
| Blacklist.SyncKept | middleware/blacklist.go:185-277 | Each such operation leaves the tree compiled from the current file and lists |
| Blacklist.BlocksAsItReads | middleware/blacklist.go:77-131 | With a tree in step, a query is blocked exactly as the lists read in plain text: blocking is on, the query spells a name the file or the extra hosts list, no exception given is a suffix of it, and no exempt label is given |
| Blacklist.ListedHostIsBlockedIff | middleware/blacklist.go:77-131 | A host as lists write it, queried with the final dot and in any case, is blocked exactly if blocking is on and no exception is a suffix of it or exempts the client |
| Blacklist.PlainExceptionsCoverIff | middleware/blacklist.go:553-560 | Exceptions as lists write them cover a host exactly if one of them ends it |
| Blacklist.DomainListMeans | middleware/blacklist.go:536-551 | The list of extra hosts holds exactly the names its values spell |
| Blacklist.InSyncDecides | middleware/blacklist.go:77-131 | With such a tree the decision made is the decision meant |
| Blacklist.OperationsChangeTheirLists | middleware/blacklist.go:408-529 | Each operation changes its own list or switch as given and no other; runtime exceptions only join, and a refresh installs only a valid candidate |
| Blacklist.RightIff | middleware/blacklist.go:77-131 | For any tree, file and lists: all queries of all clients are decided right exactly if blocking is off or tree and lists agree on every name no exception covers |
| Blacklist.FailedHostsStayRightIff | middleware/blacklist.go:509-517 | Extra hosts replaced without a reload: all decisions stay right exactly if blocking is off or the lists differ in no name that the file lacks and no exception covers |
| Blacklist.FailedExcludesStayRightIff | middleware/blacklist.go:519-529 | Exceptions replaced without a reload: all decisions stay right exactly if blocking is off or every listed name the old exceptions cover is still covered |
| Blacklist.RefreshDecidesRightIff | middleware/blacklist.go:185-246 | A downloaded list with several hosts on a line: all decisions are those of the file as read from disk exactly if blocking is off or each name only the strict reading finds is an extra host or exempt |
| Blacklist.ReloadRepairs | middleware/blacklist.go:254-277 | After a successful reload all decisions are right, whatever went wrong before |
| Blacklist.FallbackIsEmpty | middleware/blacklist.go:86-88 | Parsing the configured list again when the merged rules are empty yields empty rules |
| Blacklist.BlackList.Run | middleware/blacklist.go:77-131 | Decides from the parsed rules and the tree, reparsing included |
| Blacklist.BlackList.ReloadHole | middleware/blacklist.go:254-277 | Recompiles the file on disk, or changes nothing |
| Blacklist.BlackList.Refresh | middleware/blacklist.go:185-246 | Installs file and tree together for a valid candidate, otherwise changes nothing |
| Blacklist.BlackList.ReplacePersistedHosts | middleware/blacklist.go:509-517 | Sets the normalised hosts and reloads; a failed reload keeps the new list with the old tree |
| Blacklist.BlackList.ReplacePersistedExcludes | middleware/blacklist.go:519-529 | Sets the persisted exceptions, merges the rules and reloads |
| Blacklist.BlackList.AddRuntimeWhitelist | middleware/blacklist.go:420-451 | Appends exactly the new normalised values; an error exactly if nothing was added |

## Left out

- Limiter arithmetic: `rate.Limiter` computes with floating point and whole durations; the token bucket here is exact.
- Limiter entries: the list elements shared by map and list are a map and a list of addresses; the tracked-clients gauge is not modelled.
- Writer shutdown: behaviour after `Close`, a rollback that itself fails, and the read-only connection pool.
- Writer statements: callers' statements are never transaction control themselves, and their SQL text is opaque.
- DNS-log process start: a failed configuration ends the process, so it is no step; loading and decoding of keys is an outcome.
- DNS-log alias rows are not part of the privacy invariant, since adding an alias does not check whether a clear is required.
- DNS-log names: canonical domain names, address parsing and the token text format (`validDNSLogToken`) are classified inputs; tokens are free constructors.
- DNS-log queries: `GetTop`, `SearchClients`, VACUUM, WAL checkpoints, timers and the wake-up channel of the background loop.
- DNS-log keys are unbounded; `dt` in 64 bits is not modelled, nor are the textual hour starts of dashboard points.
- DNS-log dashboard reads that fail are not steps; a failed write is.
- DnsLogDashboard.CachedHoursEqualTheLog: counts a half-failed rotation as a change, because the cached hours are then really stale.
- DnsLogPrivacy.StoredRowsAreInTheRecordedMode: asks for respectful runs, because overtaken discards and foreign appended events really break it.
- Purging.PurgingIsUnobservable: asks that identifiers drawn for new sessions are not in use; random 32-byte secrets are not modelled.
- Browser store read errors and a purge whose second delete fails: the database fails only in writing transactions; blank texts beyond trimming are not modelled.
- Text.ToLower: exact on ASCII and on the two other characters whose lower case is ASCII; further Unicode case folding is identity.
- Cache entries in wire format: packing and unpacking of messages lose nothing here except that a nil record cannot be packed; JSON framing is left out.
- Cache ages of 2^32 seconds and more; which requests a configured exclusion matches; counters and status views.
- A cache entry that cannot be decoded: the lookup reports it; that the message is then dropped by the pipeline is not modelled.
- Pipeline.BlockedQueriesTouchNothing: knows the six pre-routing middlewares the server ranks; an unknown one may have any effect.
- Pipeline middlewares that fail before routing are skipped without effect; upstream, stub, static, status and zen answers are inputs.
- Upstream slots: metrics, and panics between taking a slot and registering its return.
- Tagger refreshes that overlap: reading and publishing are not under one lock; mutations here are serialised.
- Tagger tables: known-host search and member listings are left out.
- Network address parsing and containment are arbitrary functions.
- Blacklist tree: the radix tree is a set of names; download, decompression, file renames and revision state are one outcome; scanner errors, line length limits and cancellation are left out.
- Blacklist.BlockedIffListed: asks for successful replacements and one host per downloaded line; what holds otherwise is `FailedHostsStayRightIff`, `FailedExcludesStayRightIff` and `RefreshDecidesRightIff`.
- Blacklist answers: making the answer record of a blocked name is assumed to succeed.
- Command line, HTTP API, user interface, configuration files, logging, metrics, certificates, JWT validation, migrations and scheduling.
