# redis-dns: a verified model

redis-dns resolves names through Redis. A client on the LAN appends requests to a stream; a remote
server answers them from a shared cache or from upstream, races the addresses of an answer, remembers
the winners, pushes fresh answers to all clients, and refreshes popular names before they expire. This
project models those parts in Dafny and proves what they guarantee over every input and every run.

Time is an integer number of nanoseconds. Redis is a map whose keys carry an expiry. Everything
concurrent (the `select` of the race, resolutions sharing one preference entry, callers, dispatcher,
subscriber, handlers and prefetcher) is a transition system: a run is any sequence of enabled steps,
and theorems quantify over all of them. Code that works in place is a method or a class of methods,
proved against a specification function; the theorems are about that function.

| file | models |
|---|---|
| `Dns.dfy` | messages, `MinTTL`, the lifetimes of `cache` and `localSet` |
| `Keys.dfy` | `CacheKey`, ranking members, schedule keys |
| `Race.dfy`, `RaceTheorems.dfy` | `pickWinner`'s event loop, and its theorems |
| `Narrow.dfy` | `answerIPs`, `ipIn`, `narrow` |
| `Pref.dfy` | the preference hash in Redis, `applyPref`, `storePref`, `applyRace` |
| `PrefSystem.dfy`, `PrefRun.dfy` | concurrent resolutions over one preference entry; `applyRace` as one of them |
| `LocalCache.dfy` | the client's versioned cache |
| `Protocol.dfy`, `ProtocolTheorems.dfy`, `ProtocolHistory.dfy`, `StalenessExample.dfy` | a client and the server as one system |
| `Clients.dfy` | any number of clients over one server |
| `Handle.dfy` | `handle`, `cache`, `dispatch` in place, and how they fit the system |
| `PrefetchSchedule.dfy`, `PrefetchLapses.dfy` | the prefetch sweep and its schedule; exactly when a hot name lapses |
| `Counter.dfy`, `Ranking.dfy` | query counting, the decaying ranking |

`dafny verify dfyconfig.toml` checks the whole project.

## Where the code and its documentation differ

The model follows the code. Each case below names the theorem that says when the documented property
holds, and the run that breaks it where there is one.

- TCP beats ICMP in the race: the budget branch returns a held ping before a held connect, the reverse
  of the deadline branch. `TcpBeatenIff` says exactly when a ping beats a connect that came in time;
  `PingCanBeatConnect` is such a race.
- A second `applyRace` returns its input: true of a narrowed answer (`NarrowedIsFinal`), but an answer
  that came back whole can be narrowed later. `UntouchableIff` says which messages no race can change.
- A bump never fabricates a negative entry: `StorePref` pipelines HSET and EXPIRE without a transaction,
  and if Redis takes other commands between them, every configuration that reuses winners has a run that
  fabricates one, whatever its lifetimes (`SplitStoreStrays`). If the two land together, the positive
  lifetime must outlast the recheck age plus the operation timeout and the negative lifetime must outlast
  the operation timeout, because another race may put a negative entry in between. `NeverStraysIff` is
  the exact condition for both cases.
- "Real TTL" in the local cache: a server cache hit is stamped anew and the client restarts its clock,
  so an answer can be served for nearly twice its TTL. `ServedWithinTwiceTtl` is the bound and
  `BoundIsAttained` a run within one nanosecond of it. A "fresher" answer is one with a later
  `ResolvedAt` stamp, which for a cache hit is not the instant of resolution.
- The `block` timeout of a query: a confirmed request starts a second wait. `CallTakesTwoWaits` bounds a
  call by one wait from registering or, once confirmed, one from the confirmation; `TwoWaitsAreTaken` is a
  run that takes both in full.
- The Redis cache never outlives the records: records with TTL 0 are ignored by `MinTTL`.
  `WithinAllRecordsIff` says exactly when the entry outlives no record at all, `ZeroTtlIsCached` is an
  answer that must not be cached and is.
- A hot name never lapses while ranked: `LapseFreeIff` gives the exact condition over all runs, for every
  sweep period, every least lifetime, every ceiling that `cache` puts on lifetimes, every fixed list, and
  with or without stores by request handlers. The least lifetime must exceed four sweeps, or the refresh
  period of the ceiling if that is shorter; and where the ceiling allows a refresh to be put off for
  longer than the least lifetime, a fixed domain on the same cache key, or a handler that stores an answer
  it fetched before the refresh, can undercut the schedule. `ShortLifeLapses`, `PinnedNameLapses` and
  `StoredNameLapses` are the runs that lapse. With the example settings, a ceiling of 300 s and a sweep of
  60 s, the condition is that lifetimes exceed 240 s, whatever is listed or stored (`ExampleSettingsIff`).
- The prefetcher warms the key that requests read: false for names ending in an odd number of
  backslashes, which the library's `Fqdn` does not leave fully qualified. Names unpacked from a DNS
  message are fully qualified and always meet the condition (`PrefetchWarmsWireNames`).
- The refresh delay is "never more often than the sweep": the one-hour cap is applied last and wins.
  `DelayBelowSweepIff` says exactly when: for every lifetime, once the sweep period exceeds an hour.

## Model

| member | source | states |
|---|---|---|
| `Dns.ComputeMinTtl` | internal/resolver/resolver.go:47-66 | the two loops over a running minimum return the least positive TTL among answer and authority records, SOA minimum included, or 0 |
| `Dns.MinTtlExact` | internal/resolver/resolver.go:47-66 | the minimum is carried by some record and no positive TTL carried is smaller; 0 only when none is positive |
| `Dns.LifetimesWithinRecords` | internal/server/server.go:232-251 | neither the Redis lifetime nor the local one exceeds any positive TTL of the message |
| `Dns.LifetimeCeilings` | internal/server/server.go:235-251 | NXDOMAIN stays within negTTL, everything else within cacheTTL, and caching is off exactly when the ceiling in force is not positive |
| `Dns.CacheLifeExact` | internal/server/server.go:235-251 | the Redis lifetime is the ceiling in force or a positive TTL of the message, and within both: the greatest allowed |
| `Dns.LocalLifeExact` | internal/client/client.go:451-457 | the local lifetime is the least positive TTL of the message, and localTTL exactly where there is none |
| `Dns.WithinAllRecordsIff` | internal/server/server.go:232-251 | the Redis entry outlives no record of the message if and only if the message is not cached or no record has TTL 0 |
| `Dns.ZeroTtlIsCached` | internal/resolver/resolver.go:49-53 | an answer whose only record has TTL 0 is cached for the whole ceiling |
| `Keys.ItoaRoundTrip` | internal/redisx/redisx.go:47-49 | decimal printing can be read back and contains no separator |
| `Keys.CacheKeyInjective` | internal/redisx/redisx.go:47-49 | distinct (name, type) pairs have distinct cache keys, even when a name contains ':' |
| `Keys.KeyShapes` | internal/redisx/redisx.go:47-49 | the literal text of a cache key and of a schedule key |
| `Keys.PrefKeyInjective` | internal/resolver/pref.go:77-79 | distinct questions have distinct preference keys |
| `Keys.PrefKeyIsNoCacheKey` | internal/resolver/pref.go:77-79 | no preference key is a cache key |
| `Keys.LastIndex` | internal/server/stats.go:58 | the position returned holds the separator and none follows; -1 exactly when there is none |
| `Keys.MemberRoundTrip` | internal/server/stats.go:52-67 | parsing a counted member gives the lower-cased FQDN and the type, for every registered type and every name, '\|' included |
| `Keys.ParseMemberIff` | internal/server/stats.go:57-67 | a member parses to a name and a type if and only if it is that non-empty name, a bar and the type's registered text |
| `Keys.MemberShape` | internal/server/stats.go:52-54 | a member is the canonical name, a bar and the type's name, or TYPE and its number |
| `Keys.LowerExact` | internal/server/stats.go:53 | lower-casing identifies exactly the names that differ in case alone, and leaves no capital |
| `Keys.CaseDoesNotMatter` | internal/client/client.go:154-155 | names that differ in case alone share one cache key |
| `Keys.CanonicalExact` | internal/server/stats.go:53 | canonicalising adds a final dot where it is missing and changes nothing else but case |
| `Keys.CanonicalIdempotentIff` | internal/server/stats.go:53 | a canonical name is a fixed point exactly when the name ends in an even number of backslashes |
| `Keys.PrefetchWarmsRequestKeyIff` | internal/server/server.go:343-356 | a ranked name's refresh writes the key its requests read, exactly for those names |
| `Keys.PrefetchWarmsWireNames` | internal/client/client.go:153-155 | for every fully qualified name, so for every name from a DNS message, the two keys agree |
| `Keys.ScheduleKeysDisjoint` | internal/server/server.go:300-344 | fixed and dynamic keys in the one `next` map never collide |
| `Keys.DynamicKeyInjective` | internal/server/server.go:344 | distinct members have distinct schedule keys |
| `Race.Timers` | internal/resolver/race.go:164-177 | an unset budget is one second; an unset or too long deadline is half the budget with ICMP and all of it without; the deadline never exceeds the budget and is strictly inside it with ICMP |
| `Race.PickWinner` | internal/resolver/race.go:217-291 | the loop over its five variables computes the transition system's outcome on every event sequence, and a winner has the address, means and round trip of one of the reported successes |
| `Race.WinnerIsCredited` | internal/resolver/race.go:193-291 | on every event sequence, a winner and whatever is held carry the address, port and round trip of the probe that reported them |
| `Race.DoneIsFinal` | internal/resolver/race.go:231-290 | events after the return change nothing |
| `RaceTheorems.ChannelsNeverFill` | internal/resolver/race.go:193-217 | probes that report once never exceed their channel's capacity, so none blocks, even after an early return |
| `RaceTheorems.RaceInvariant` | internal/resolver/race.go:231-290 | whenever the loop waits, pending counts, held connect and held ping summarise the events received exactly; with TCP out nothing is held and a ping is pending |
| `RaceTheorems.StepKeepsInvariant` | internal/resolver/race.go:246-289 | every event that does not return preserves that invariant |
| `RaceTheorems.RaceTerminates` | internal/resolver/race.go:231-290 | the measure drops by one with each surviving event, so at most ips*ports + ips + 2 events are received |
| `RaceTheorems.VerdictExact` | internal/resolver/race.go:164-291 | no winner exactly when no connect came in time and no ping was answered; otherwise the winner is the address dialled or pinged, with its own port and round trip, and a later-port or ICMP winner is the earliest of those with the least round trip of its kind |
| `RaceTheorems.TcpBeatenIff` | internal/resolver/race.go:269-288 | a ping beats a connect that came in time exactly when the budget is taken before the deadline with both held |
| `RaceTheorems.BudgetAfterDeadline` | internal/resolver/race.go:281-288 | a budget that runs out after the deadline names no winner |
| `RaceTheorems.PingCanBeatConnect` | internal/resolver/race.go:281-288 | a concrete race in which a ping beats a port-80 connect |
| `RaceTheorems.RaceConfluence` | internal/resolver/race.go:217-291 | when all probes report and no timer fires, every interleaving returns a verdict of the class the results call for, with least round trip among later ports |
| `RaceTheorems.OrderDoesNotMatter` | internal/resolver/race.go:217-291 | two orders of the same results agree on the class, and on the round trip for later ports |
| `Narrow.ComputeAnswerIPs` | internal/resolver/race.go:119-133 | the loop with its `seen` map lists the addresses that the lemmas below characterise |
| `Narrow.RecordIPExact` | internal/resolver/race.go:137-149 | exactly A records count for type 1 and AAAA records for type 28, with their own address |
| `Narrow.AnswerIPsExact` | internal/resolver/race.go:119-149 | exactly the addresses of the queried type are listed |
| `Narrow.AnswerIPsOrder` | internal/resolver/race.go:119-133 | they are listed in order of first occurrence |
| `Narrow.AnswerIPsDistinct` | internal/resolver/race.go:119-133 | no address is listed twice |
| `Narrow.IpIn` | internal/resolver/race.go:151-158 | the search finds an address exactly when it is listed |
| `Narrow.NarrowMsg` | internal/resolver/race.go:296-307 | the in-place filter of the copied answer yields the narrowed message, other sections untouched |
| `Narrow.KeptInOrder` | internal/resolver/race.go:296-307 | the narrowed answer is an order-preserving subsequence |
| `Narrow.KeptAtExact` | internal/resolver/race.go:296-307 | the positions kept are exactly those of the records without an address of the queried type or with the winner's |
| `Narrow.KeptMembers` | internal/resolver/race.go:296-307 | a record stays exactly when it is not of the queried address type or holds the winner |
| `Narrow.NarrowedIPs` | internal/resolver/race.go:296-307 | what is left holds the winner as its one address, or none if the winner was not there |
| `Narrow.NarrowingKeepsTtl` | internal/resolver/race.go:296-307 | narrowing makes MinTTL 0 or leaves it no smaller |
| `Pref.RedisPrefBackend.LoadPref` | internal/resolver/pref_redis.go:25-47 | a missing or expired key loads nothing, an absent or empty address loads a negative entry, and absent fields their zero values |
| `Pref.RedisPrefBackend.StorePref` | internal/resolver/pref_redis.go:49-65 | HSET at one instant overwrites every field and keeps a live key's expiry, EXPIRE at another sets it unless the key is gone; when they land together exactly the new entry is left; no other key changes |
| `Pref.RedisPrefBackend.BumpPref` | internal/resolver/pref_redis.go:67-69 | the hit count grows by one, creating a hash without expiry when the key is gone; no other key changes |
| `Pref.StoreLoadRoundTrip` | internal/resolver/pref_redis.go:25-65 | until it expires a stored entry loads back, its instant floored to seconds, so that a loaded age never understates the true age |
| `Pref.StoredUntil` | internal/resolver/pref_redis.go:25-65 | a stored entry loads exactly until its lifetime is over |
| `Pref.LoadOfCountOnly` | internal/resolver/pref_redis.go:25-47 | a hash with nothing but a hit count loads as a negative entry with Go's zero values |
| `Pref.BumpLoads` | internal/resolver/pref_redis.go:67-69 | a bump of a live key adds one to the loaded hits and changes nothing else, the expiry included |
| `Pref.HsetThenExpire` | internal/resolver/pref_redis.go:54-64 | whatever the key held, the two commands of a store leave exactly the new entry with its own expiry |
| `Pref.StrayBumpIsForever` | internal/resolver/pref_redis.go:67-69 | a bump of a missing key makes a negative entry that never expires |
| `Pref.ApplyPref` | internal/resolver/pref.go:84-110 | loads, decides and, on a reuse, bumps the one key and narrows; otherwise the hashes stay as they are |
| `Pref.RunApplyRace` | internal/resolver/race.go:84-115 | consulting, racing, storing and narrowing compute the specified message and leave the specified hash, for every store contents and race |
| `Pref.DecidesBy` | internal/resolver/pref.go:84-110 | a race is called for exactly when nothing is loaded, or an address that is spent, too old or not in the answer; a usable address is reused |
| `Pref.RaceDecides` | internal/resolver/race.go:102-115 | when a race is called for, the answer is narrowed to the address its verdict names, or returned whole if nobody won |
| `Pref.EntryDecides` | internal/resolver/pref.go:84-110 | a usable entry narrows the answer to that very address |
| `Pref.NothingToNarrow` | internal/resolver/race.go:84-101 | a negative entry, and an answer with fewer than two addresses, an error or another type, is returned whole |
| `Pref.RaceIsRemembered` | internal/resolver/pref.go:114-126 | after a race the key loads the winner, its means and round trip, one hit and the floored instant until ttl is over, or a negative entry until negTTL is |
| `Pref.ReuseIsCounted` | internal/resolver/pref.go:105-109 | after a reuse the live key loads one more hit and nothing else new |
| `Pref.NothingToRemember` | internal/resolver/pref.go:85-101 | without a preference cache, a contest or a positive entry, nothing is written |
| `PrefRun.ApplyRaceIsARun` | internal/resolver/race.go:84-115 | one applyRace is a run of the concurrent preference system with the same effect on the hash; it logs a store exactly when a race is called for and counts a reuse exactly when the entry is usable |
| `Pref.NarrowingNeverBreaks` | internal/resolver/race.go:84-115 | the result is the message itself, or differs in its answer only: the ordered subsequence at exactly the positions of the other records and of one of the original addresses |
| `Pref.NarrowedIsFinal` | internal/resolver/race.go:84-115 | a narrowed answer is returned as it is by any later race |
| `Pref.UntouchableIff` | internal/resolver/race.go:84-98 | a message is returned unchanged by every possible race exactly when it holds fewer than two candidate addresses |
| `PrefSystem.ReachableSane` | internal/resolver/pref.go:84-126 | in every concurrent run of every configuration, a hash with an address holds the last store's fields, and every loaded entry is that of a race in the log |
| `PrefSystem.UnstrayedNegatives` | internal/resolver/pref.go:84-126 | in every run in which no bump has strayed yet, a loadable negative entry was stored by a race without a finisher |
| `PrefSystem.ReachableInv` | internal/resolver/pref.go:84-126 | in every concurrent run of a safe configuration the hash is the last store, with its expiry, plus bumps, and whoever has read it is guarded by an expiry beyond its bump |
| `PrefSystem.NegativesAreGenuine` | internal/resolver/pref.go:84-126 | no bump ever finds its key missing, and a loadable negative entry was stored by a race without a finisher and expires negTTL later |
| `PrefSystem.NeverStraysIff` | internal/resolver/pref.go:84-126 | fabricated entries are impossible in all runs if and only if nothing is reused, or the two commands of a store land together and both lifetimes outlast the load-to-bump delay |
| `PrefSystem.ShortTtlStrays` | internal/resolver/pref.go:84-126 | for every configuration with too short a positive lifetime, a run that fabricates one |
| `PrefSystem.ShortNegTtlStrays` | internal/resolver/pref.go:84-126 | likewise for too short a negative lifetime |
| `PrefSystem.SplitStoreStrays` | internal/resolver/pref_redis.go:54-69 | for every configuration that reuses, a run in which a winner written over an expiring key is reused before its EXPIRE, and its bump fabricates a negative entry |
| `PrefSystem.ReuseIsYoung` | internal/resolver/pref.go:84-110 | in every run of every configuration, a reused address is the winner of the race it came from, in the present answer, and no older than recheckAge |
| `PrefSystem.ReuseIsThrottled` | internal/resolver/pref.go:84-126 | in every run of every configuration EnablePref makes, without lost bumps, one race's winner is reused at most recheckHits - 2 + c times with c resolutions between load and bump |
| `PrefSystem.QuotaIsReached` | internal/resolver/pref.go:84-126 | every configuration that reuses has a run with exactly recheckHits - 2 + c reuses |
| `LocalCache.CacheIsArgmax` | internal/client/client.go:432-465 | for every history of writes, removals and clears, a key holds the latest-arriving of the standing writes with the greatest stamp, and is absent exactly when none stands |
| `LocalCache.NoStaleOverwrite` | internal/client/client.go:448-465 | no standing write has a later stamp than the cached entry |
| `LocalCache.ClientCache.LocalSet` | internal/client/client.go:451-465 | the write enters the history with its TTL-derived expiry, and the map stays the replay of the history |
| `LocalCache.ClientCache.Conclude` | internal/client/client.go:438-445 | the second phase of a read returns an unexpired entry, or deletes whatever the key holds by then |
| `LocalCache.ClientCache.LocalGet` | internal/client/client.go:432-446 | a hit is exactly an unexpired entry; a miss leaves the key absent and the rest alone |
| `LocalCache.ClientCache.Clear` | internal/client/client.go:82-93 | a backend swap empties the cache |
| `ProtocolTheorems.ReachableCorrelated` | internal/client/client.go:259-414 | the invariant tying wait table, requests, handlers, responses, channels and results together holds in every run |
| `ProtocolTheorems.Correlation` | internal/client/client.go:259-317 | in every run, with register and unregister as steps of their own and other clients on the same streams, the wait table holds exactly the calls between them, no two responses share an ID, a call gets only its own response, and the dispatcher can always send |
| `ProtocolTheorems.CallLifecycle` | internal/client/client.go:259-317 | a call is opened, registered, answered or given up, unregistered and returned in that order, and adds an answer exactly when it has one without an error |
| `ProtocolTheorems.RoomToSend` | internal/client/client.go:407-414 | the capacity-1 channel is empty when the dispatcher holds a response for it, even if the caller gave up after the lookup |
| `ProtocolTheorems.ReachableOnTime` | internal/client/client.go:259-317 | in every run a call that leaves its select with a response does so on time, and the response was read after the call registered |
| `ProtocolTheorems.CallTakesTwoWaits` | internal/client/client.go:285-316 | a response is taken within one wait of registering or, if the request was confirmed, within one wait of that confirmation, which came within one of registering |
| `StalenessExample.TwoWaitsAreTaken` | internal/client/client.go:293-316 | for every configuration that caches the answer, a call that takes exactly two waits |
| `ProtocolTheorems.TripBound` | internal/client/client.go:148-180 | so what a caller stores locally was read at most two waits and the caller's lag ago |
| `ProtocolTheorems.ReachableFresh` | internal/server/server.go:157-263 | in every run each copy of an answer (Redis, local, in flight, being read) is backed by a resolution of that very question, recent enough for its expiry |
| `ProtocolHistory.LocalIsReplay` | internal/client/client.go:432-465 | in every run the local cache is the replay of the stamped responses and updates, removals and clears of that run |
| `ProtocolHistory.LocalIsFreshest` | internal/client/client.go:448-465 | so it holds, for each question, the latest-arriving of the standing answers with the latest stamp |
| `ProtocolHistory.ReplyStands` | internal/client/client.go:176-179 | a reply is served and stored with its response's stamp and TTL-derived expiry, unless a later stamp stood; no other key changes |
| `ProtocolHistory.WarmStands` | internal/client/client.go:382-386 | likewise for an update and its stamp |
| `ProtocolHistory.NoStaleStep` | internal/client/client.go:448-465 | no step replaces a local entry by one that came with an earlier stamp |
| `ProtocolHistory.StampsAreHonest` | internal/server/server.go:178-211 | in every run a response with an answer carries its rcode and the instant it was read or resolved, and an update one between resolution and now |
| `ProtocolHistory.PublishedAs` | internal/server/server.go:254-263 | a handler's update has the stamp of its response, a prefetcher's the instant of publishing, each with its own question and answer |
| `Clients.ViewIsARun` | internal/client/client.go:323-363 | with any number of clients on one response stream, what each client sees is a run of the protocol system |
| `Clients.EveryClientCorrelated` | internal/client/client.go:259-414 | correlation holds for every client of every run |
| `Clients.NobodyElsesResponse` | internal/client/client.go:407-414 | no two clients' calls ever hold responses with one ID |
| `Clients.EveryClientServedFresh` | internal/client/client.go:148-180 | provenance and bounded staleness hold for every client of every run |
| `ProtocolTheorems.ServedIsGenuineAndFresh` | internal/client/client.go:148-180 | every answer ever served was returned by the resolver for that question, no longer ago than its two lifetimes and the time it can travel |
| `ProtocolTheorems.ServedWithinTwiceTtl` | internal/client/client.go:432-465 | with a positive MinTTL that is at most twice the TTL plus the time an answer can travel |
| `StalenessExample.BoundIsAttained` | internal/server/server.go:178-195 | for every configuration that caches the answer, a run serves it within one nanosecond of the bound |
| `Handle.SharedRedis.CacheAnswer` | internal/server/server.go:235-251 | the answer is written under its key with the bounded lifetime returned, or not at all |
| `Handle.SharedRedis.HandleRequest` | internal/server/server.go:157-230 | a live cache entry is answered with a new stamp; otherwise a success is cached, published and answered, and a failure only answered |
| `Handle.FreshIsAnnounced` | internal/server/server.go:196-211 | a fresh answer is sent to its caller, announced once and cached under its own key for its lifetime, or not at all if that is 0 |
| `Handle.FailureLeavesNoTrace` | internal/server/server.go:196-199 | a failure is reported to its caller and changes neither cache nor updates |
| `Handle.SecondRequest` | internal/server/server.go:174-195 | until the cached answer expires every request for it gets it, newly stamped, without upstream, write or update; from then on upstream decides |
| `Handle.HandleIsARun` | internal/server/server.go:157-230 | handling a request in one go is a run of the protocol system with the same effect on Redis |
| `Handle.WaitTable.Register` | internal/client/client.go:395-399 | the ID gets the call's own empty channel and no other entry changes |
| `Handle.WaitTable.Unregister` | internal/client/client.go:401-405 | the ID is gone and no other entry changes |
| `Handle.WaitTable.Dispatch` | internal/client/client.go:407-414 | the response enters the channel registered under its ID and no other; it blocks exactly when that channel is full, and an unregistered ID is dropped |
| `Handle.DispatchedExact` | internal/client/client.go:407-414 | exactly the channel of the response's ID changes, if it is empty |
| `Handle.DispatchIsARun` | internal/client/client.go:407-414 | dispatching in one go is a run of the protocol system with the same effect on the waiting channels, and finds the channel empty |
| `PrefetchSchedule.DueDynamic` | internal/server/stats.go:203-215 | the due members are exactly the ranked ones that parse and are not scheduled for later |
| `PrefetchSchedule.DueKeepsOrder` | internal/server/stats.go:203-215 | the due members keep the order of the ranking |
| `PrefetchSchedule.DelayBounds` | internal/server/stats.go:78-93 | the delay is at most an hour, at least a sweep when that is possible, and otherwise 80% of the lifetime |
| `PrefetchSchedule.DelayExtremes` | internal/server/stats.go:81-93 | an answer that is not cached waits one sweep, and sweep periods of an hour or more give an hour |
| `PrefetchSchedule.DelayBelowSweepIff` | internal/server/stats.go:78-93 | the delay is less than a sweep if and only if the answer is cached and the sweep period exceeds an hour |
| `PrefetchSchedule.Prefetcher.FindDue` | internal/server/stats.go:203-215 | the loop finds the due members in ranking order |
| `PrefetchSchedule.Prefetcher.PrefetchDynamic` | internal/server/server.go:332-363 | due members are resolved, cached and rescheduled; failures wait one sweep, and answers that do not pack change nothing |
| `PrefetchSchedule.Prefetcher.PrefetchSweep` | internal/server/server.go:283-326 | fixed domains first, then ranked members, over one schedule map |
| `PrefetchSchedule.SweepLaws` | internal/server/server.go:342-359 | for a member that is due and ranked, a failure puts it off by a sweep and an answer writes its entry and schedules it; otherwise a sweep changes nothing of it |
| `PrefetchSchedule.FixedLaws` | internal/server/server.go:292-318 | a listed domain that is due and resolves is put off by its own interval, or by the sweep period in whole seconds; a failure leaves it due |
| `PrefetchSchedule.FixedWrites` | internal/server/server.go:292-318 | a listed refresh writes the domain's type A entry with its lifetime, and nothing when it is early, fails or is not cached |
| `PrefetchSchedule.RunSeenByMember` | internal/server/server.go:283-363 | over every run of sweeps and on-demand stores, the shared schedule projected to a name that no fixed domain pins is that name's own recurrence |
| `PrefetchSchedule.OutlastsPeriod` | internal/server/stats.go:78-93 | a lifetime within the ceiling and above four sweeps, or above the ceiling's period, outlasts the sweep at which its refresh is due |
| `PrefetchSchedule.ReachableCover` | internal/server/server.go:283-363 | in every run whose outside writes do not undercut the schedule, an entry that is not due at the next sweep outlasts the sweep at which it is |
| `PrefetchSchedule.HotNameNeverLapses` | internal/server/server.go:328-363 | in those runs, with the name coming and going in the ranking and failing at times, after any sweep that found it not due, or ranked and resolved it, its entry is live until the next sweep |
| `PrefetchLapses.ShortLifeLapses` | internal/server/stats.go:78-93 | a lifetime that does not outlast its period has a run that lapses, hot at every sweep |
| `PrefetchLapses.PinnedNameLapses` | internal/server/server.go:292-319 | so has a name on the fixed list, for every sweep period and ceiling, when a listed refresh with the least lifetime does not outlast the ceiling's period |
| `PrefetchLapses.StoredNameLapses` | internal/server/server.go:178-211 | so has a name whose request handler stores an answer with the least lifetime after a refresh with the greatest, when that does not outlast the ceiling's period |
| `PrefetchLapses.ListedAndRanked` | internal/server/server.go:292-310 | any domain that is listed and ranked for type A has one cache key for both |
| `PrefetchLapses.NeverLapsesIff` | internal/server/server.go:328-363 | for one constant lifetime, no run of the shared schedule lapses if and only if the lifetime exceeds the refresh period in whole sweeps |
| `PrefetchLapses.OneSweepLifetimeLapses` | internal/server/server.go:328-331 | a name whose lifetime equals the sweep period lapses |
| `PrefetchLapses.LapseFreeIff` | internal/server/server.go:283-363 | the exact condition over all runs, in the sweep period, the least lifetime, the ceiling on lifetimes, the fixed list and the presence of on-demand stores |
| `PrefetchLapses.LowCeilingIff` | internal/server/server.go:235-251 | under a ceiling of up to five sweeps the condition is that the least lifetime exceeds the ceiling's period, whatever is listed or stored |
| `PrefetchLapses.ExampleSettingsIff` | config.server.example.yaml:15-20 | with the example settings a name never lapses if and only if its lifetimes exceed 240 s |
| `Counter.RunCounter` | internal/server/stats.go:151-199 | the counting loop with its local batch follows the event system |
| `Counter.CountConservation` | internal/server/stats.go:151-199 | in every run the counting calls are, as a multiset, those dropped, queued, batched and flushed; the batch stays below 256 and is empty after shutdown |
| `Counter.FlushesWhen` | internal/server/stats.go:151-199 | a tick and a shutdown empty the batch, a receipt flushes exactly when it is the 256th, and a count is dropped only when 4096 are queued |
| `Counter.FlushesAreBatches` | internal/server/stats.go:166-199 | in every run every flush has between 1 and 256 counts |
| `Counter.CountsInOrder` | internal/server/stats.go:151-199 | accepted counts leave in the order of the calls |
| `Ranking.FlushAddsCounts` | internal/server/stats.go:166-199 | a flush adds to each score the number of its occurrences in the batch |
| `Ranking.RankStore.Flush` | internal/server/stats.go:166-199 | the increments of one batch, applied one by one |
| `Ranking.RankStore.Decay` | internal/server/stats.go:130-144 | weighting, pruning and rank trim in place, with the counts that are flushed between the three pipelined commands; at most 10000 members remain |
| `Ranking.TrimSize` | internal/server/stats.go:130-144 | the rank trim leaves min(size, cap) members |
| `Ranking.TrimKeepsTheBest` | internal/server/stats.go:130-144 | whoever stays has a score no lower than whoever is trimmed, and a lexicographically greater name where scores are equal |
| `Ranking.LexExact` | internal/server/stats.go:130-144 | the order among equal scores is that of the first differing character, a prefix coming first |
| `Ranking.DecayEffect` | internal/server/stats.go:130-144 | survivors have their weighted score and the counts since, above 0.5 |
| `Ranking.DecayCaps` | internal/server/stats.go:130-144 | at most 10000 members survive a sweep |
| `Ranking.DecayKeepsOrder` | internal/server/stats.go:130-144 | decay preserves the order of survivors that are not counted meanwhile |
| `Ranking.GeometricSumClosed` | internal/server/stats.go:130-144 | f + ... + f^k is f(1 - f^k)/(1 - f) |
| `Ranking.ScoreBound` | internal/server/server.go:320-325 | over every run with at most q counts from one weighting to the next, the score after k of them is at most s0 f^k + q(f + ... + f^k), and the counts since |
| `Ranking.ForgottenIsDropped` | internal/server/server.go:320-325 | a member never counted again is gone once s0 f^k is at most 0.5 |
| `Ranking.CountedStaysRanked` | internal/server/server.go:320-325 | a counted member stays ranked while f^k exceeds 0.5 and nothing needs trimming |

## Left out

- Sockets: ICMP and TCP probing is one arbitrary success or failure event per probe.
- Encodings: DNS packing, JSON and the UDP, TCP and DoH frontends; a wire answer stands for its message, and malformed payloads, which the code drops, do not occur.
- Redis itself: retries, pooling, TLS, keepalive and eviction. A store operation takes effect at most once, within the operation timeout, or not at all; EXPIRE's rounding to whole seconds is not modelled.
- Redelivery: a consumer group recreated after NOGROUP can deliver old requests again; each request entry is delivered once here.
- Backend swaps other than the cache clear: in-flight answers and the stream cursor would cross backends. All clients and the server share one clock.
- Liveness of delivery: responses may be trimmed or skipped, so only safety and time bounds are proved.
- Sharing of one lookup by several callers: a received answer may be replied any number of times, which covers it.
- Delays that the code does not bound are parameters: from the fetch of an answer to its SET in Redis, from its publication to a subscriber, how long after its timer has fired a select may still take another event, and from leaving the select to the local write. The way of a response is otherwise bounded by the caller's own timeout.
- Instants inside one `handle`: `HandleRequest` reads the clock once; the protocol system lets time pass between its steps.
- Sweeps are instantaneous, and a sweep whose fixed list cannot be read does not happen. A store by a request handler may come at any instant between sweeps; the miss that led to it is not part of the schedule's model.
- LapseFreeIff: needs a sweep period of at least five nanoseconds, below which integer division shortens the 80% delay; periods are configured in whole seconds, and its positive half needs no bound.
- Floating point: the decay factor is a real f in (0,1) and scores are reals; `decayFactor` itself is not modelled.
- Types outside the library's table, which print as TYPEnnn and need not parse back; the table is a parameter.
- Nil addresses in records, and the difference between textual and semantic equality of addresses.
- Integer overflow: durations and counters are unbounded, which the code's values never leave by far.
- Case folding beyond ASCII.
- `Top`, one sorted-set query; its result is a parameter of a sweep.
- Configuration, logging, following a new backend, and the main functions.
