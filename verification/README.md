# Heimdallr: a verified model of the resolver's stateful cores

Heimdallr is a DNS server: it forwards queries upstream, caches the answers, filters names through
block and allow lists, minimizes query names, logs queries and transfers zones. This project models
the parts of it that carry state or search, and proves what they do over every input, every run and
every interleaving.

| file | what it models |
|---|---|
| `Prelude.dfy` | option and result types, bytes, a few sequence operations |
| `DomainText.dfy`, `BlocklistMatch.dfy` | name normalization, labels, suffix matching against a set of names |
| `ListText.dfy`, `ListPages.dfy` | reading list files; what the reader makes of a page, told from the lines written |
| `Loader.dfy`, `LoaderOrder.dfy` | the depth-bounded search over lists that name lists, and its dependence on their order |
| `AddressMask.dfy`, `ClientFilter.dfy` | prefix masks for both address widths; the filter decision |
| `Metrics.dfy` | the process-wide counters that the cache and the filter bump |
| `ResponseCache.dfy`, `CacheHistory.dfy`, `CacheSnapshot.dfy` | the response cache, its contents against the insert history, save and load |
| `Forwarder.dfy` | lookups, ANY lookups and prefetches interleaving over the shared cache |
| `ForwarderHistory.dfy` | every run told from upstream's replies: what a task asks, stores and answers |
| `ForwarderAgreement.dfy`, `ChainLimit.dfy` | what a lookup returns against what later ones find; exactly when the CNAME chain limit holds |
| `QnameMinimization.dfy` | the minimization driver |
| `QueryLog.dfy` | the buffered query log writer |
| `TcpFraming.dfy`, `AxfrClient.dfy` | length-prefixed messages; the zone transfer client |

How to read it: code that updates fields or loops is a class or a method (`Cache`, `QueryLogWriter`,
`Blocklist`, `LoadOne`, `ResolveWithMinimization`, `AxfrRecords`, ...) proved equal to a function on values; the
lemmas then say what those functions mean. Concurrency is a `Step` function over events, and a theorem about
`Run` holds for every sequence of events.

Where the code differs from its own comments, the model follows the code, and the difference is stated as a
result:

- "Every reachable list is loaded" is false. A source first met too deep is lost even when it is configured
  directly, because it is marked visited before its depth is checked (`Loader.ConfiguredSourceLost`); paths that
  differ only in case collapse (`Loader.CaseCollapsedSourceLost`). It holds in every order of the configured sources
  and of the lines of the lists exactly when no chain of distinct lists is longer than four hops and normalized keys
  tell the reachable sources apart (`LoaderOrder.FetchesAllInEveryOrderExactly`).
- Eviction is by last insertion, not by last use, and re-inserting a present key into a full cache costs a slot.
  The insert history alone decides: `CacheHistory.SlotLostExactly` says when a slot is lost, and
  `CacheHistory.RetentionExactly` which keys are cached.
- A lookup answers from any present entry; an expired answer is unmarked exactly once the serve-stale window is
  over (`ResponseCache.StaleFlagExact`).
- Minimization asks for the full name first, and a parent's answer can replace the name's own
  (`QnameMinimization.ParentAnswerWins`); `AgreesExactly` gives the exact condition for agreeing with the plain
  lookup, and `ErrorSurfacedExactly` which error is reported.
- "A hit returns what the miss returned" is false: a redirect made from an ANAME is stored and not returned
  (`ForwarderAgreement.RedirectOnlyOnHit`), and what is chased with DNS64 is returned and not stored.
  `ForwarderAgreement.HitMissAgreement` gives the exact condition over every interleaving.
- "Answers respect the CNAME chain limit" is false. The check covers what a plain lookup is about to store; an ANY
  lookup and a prefetch store unchecked, and with DNS64 records the chase of a CNAME extends the answer after the check
  (`ChainLimit.AnyEscapesLimit`, `PrefetchEscapesLimit`, `ChaseEscapesLimit`). `ChainLimit.PlainAnswerExactly`
  gives the exact condition for one answer, `ChainLimit.ChainLimitExactly` for all runs of a configuration.
- A zone sent in several messages with TC clear is cut after the first (`AxfrClient.SplitZoneCutShort`);
  `CompleteExactly` gives the exact condition for the transfer to bring the whole zone.
- An empty list entry (from a bare dot) covers the root name only (`BlocklistMatch.RootEntryCoversRootOnly`).

## Model

| member | source | states |
|---|---|---|
| `DomainText.NormalizeInsensitive` | src/core/filter/blocklist.rs:297-300 | two names whose characters are equal or the capital and small form of one ASCII letter, one of them with any number of trailing dots added, normalize to the same text |
| `DomainText.NormalizeExactly` | src/core/filter/blocklist.rs:297-300 | character by character: the text up to its trailing dots, each ASCII capital replaced by its small form, every other character unchanged, no capital left |
| `DomainText.NormalizeEqualExactly` | src/core/filter/blocklist.rs:297-300 | two names normalize to the same text exactly when they are equal up to ASCII case and trailing dots |
| `DomainText.LabelsExactly` | src/core/filter/blocklist.rs:121-124 | a list of labels is the text's labels exactly when they hold no dot and join with dots to the text |
| `DomainText.NormalizeIdempotent` | src/core/filter/blocklist.rs:297-300 | normalizing a normalized name changes nothing |
| `BlocklistMatch.WalkSuffixes` | src/core/filter/blocklist.rs:112-127 | the label-dropping loop of `is_blocked` and `is_allowed` returns true exactly when the labels of some entry are a suffix of the labels of the normalized query |
| `BlocklistMatch.Blocked` | src/core/filter/blocklist.rs:180-185 | blocked exactly when some block entry and no allow entry is a label suffix, whatever their lengths |
| `BlocklistMatch.CoversInsensitive` | src/core/filter/blocklist.rs:109-112 | matching ignores ASCII case and trailing dots |
| `BlocklistMatch.CoversExactly` | src/core/filter/blocklist.rs:109-127 | on the texts: a query is matched exactly when some entry is its normalized name or follows a dot at the end of it |
| `BlocklistMatch.CoversSubdomains` | src/core/filter/blocklist.rs:18-20 | a matched non-root name matches with anything prepended at a dot |
| `BlocklistMatch.RootEntryCoversRootOnly` | src/core/filter/blocklist.rs:112-127 | the empty entry matches exactly the root name, so it is the one entry that does not cover names below it |
| `ListText.LooksLikeMetaList` | src/core/filter/blocklist.rs:73-94 | the two-counter loop decides exactly whether the page is a meta-list |
| `ListText.ParsedNamesNormalized` | src/core/filter/blocklist.rs:254-294 | every name a line contributes is in normal form |
| `ListPages.LinesReadBack` | src/core/filter/blocklist.rs:64 | lines written with either line end, with or without one after the last, read back as they are |
| `ListPages.PaddingIgnored` | src/core/filter/blocklist.rs:255 | white space around a line makes no difference |
| `ListPages.LineExactly` | src/core/filter/blocklist.rs:254-294 | comments and links contribute nothing; an address and a name, with aliases ignored, and both rule forms contribute the name normalized, unless it is a local host name or holds a slash; and each kind counts as source, host or neither when lists are told apart |
| `ListPages.NoAddressNoName` | src/core/filter/blocklist.rs:275-284 | a line of words that does not start with an address contributes nothing |
| `ListPages.PageExactly` | src/core/filter/blocklist.rs:63-94 | a page of such lines in any order is a meta-list naming its links in order exactly when it has two or more of them and more than lines that speak for hosts; otherwise it holds exactly the names of its lines |
| `ListPages.MetaListReadBack` | src/core/filter/blocklist.rs:73-94 | two or more paths or URLs written one to a line read back as a meta-list naming exactly those in order |
| `ListText.SourcesAreCounted` | src/core/filter/blocklist.rs:209-214 | the sources a meta-list names are its trimmed source lines, as many as the detector counted |
| `Loader.Blocklist.ParseHosts` | src/core/filter/blocklist.rs:63-69 | adds exactly the names of the text's lines to the entries |
| `Loader.LoadOne` | src/core/filter/blocklist.rs:191-223 | the recursive in-place loader over texts computes the search over pages: same visited set, same entries |
| `Loader.LoadPage` | src/core/filter/blocklist.rs:207-222 | a fetched text adds what its page says: the lists it names, one level deeper, or the names it holds |
| `Loader.LoadNamed` | src/core/filter/blocklist.rs:209-214 | the loop over a meta-list's lines loads exactly the sources it names, in order, one level deeper |
| `Loader.LoadConfigured` | src/core/filter/blocklist.rs:100-107 | loading the configured sources yields the entries of the whole search |
| `Loader.LoadAllGrows` | src/core/filter/blocklist.rs:191-223 | visited keys, entries and fetch log only grow, and every source handed to the loader ends up visited |
| `Loader.LoaderSound` | src/core/filter/blocklist.rs:191-223 | on any graph, cyclic or not: every normalized key is tried at most once, everything fetched is within four hops of a configured source, and the entries are exactly the names held by what was fetched |
| `Loader.LoadSourceSkipsNone` | src/core/filter/blocklist.rs:196-199 | if no chain of distinct lists exceeds four hops, the depth guard never drops a source |
| `Loader.FetchesAllExactly` | src/core/filter/blocklist.rs:191-199 | every reachable source is fetched exactly when keys tell reachable sources apart and the depth guard never fires |
| `Loader.LoaderExact` | src/core/filter/blocklist.rs:100-107 | with chains of distinct lists at most four hops and keys that tell sources apart, a name is loaded exactly when some reachable, fetchable, non-meta source holds it |
| `Loader.LoadedListCovers` | src/core/filter/blocklist.rs:96-127 | under the same conditions a query is matched exactly when its labels end in those of a name held by a reachable list |
| `Loader.ConfiguredSourceLost` | src/core/filter/blocklist.rs:192-199 | if the first configured source starts a chain of five lists each naming the next one first, whatever else they name, a name held only by the sixth source is reachable and not loaded, even where that source is configured too |
| `Loader.ChainOfTexts` | src/core/filter/blocklist.rs:73-94 | list files holding two or more paths each make up such a chain |
| `Loader.CaseCollapsedSourceLost` | src/core/filter/blocklist.rs:192-195 | of two sources with equal normalized keys the second contributes nothing |
| `LoaderOrder.DeepGraphLosesInSomeOrder` | src/core/filter/blocklist.rs:191-214 | if keys tell sources apart and some chain of distinct lists is longer than four hops, some order of the configured sources and of the lines of the lists leaves a reachable source unfetched |
| `LoaderOrder.FetchesAllInEveryOrderExactly` | src/core/filter/blocklist.rs:191-214 | every such order fetches every reachable source exactly when no chain of distinct lists is longer than four hops and keys tell reachable sources apart |
| `AddressMask.ScopeZeroBits` | src/core/resolver/forward.rs:585-617 | for every prefix and width the mask keeps the leading bits and clears the rest |
| `AddressMask.ScopeZeroRoundsDown` | src/core/resolver/forward.rs:585-617 | as a number the result is the largest multiple of 2^(width - prefix) not above the address |
| `AddressMask.ScopeZeroComposes` | src/core/resolver/forward.rs:585-617 | zeroing to p then q is zeroing to min(p, q) |
| `AddressMask.ScopeZeroSubnetExactly` | src/core/resolver/forward.rs:585-617 | an IPv4 or IPv6 subnet keeps its family, its prefix and the bits the prefix covers, clears the others, and is a fixed point |
| `AddressMask.ContainsIsScopeEquality` | src/core/filter/mod.rs:48-59 | a block contains an address exactly when both scope-zero to the same number, prefixes 0 and 32 and beyond included |
| `AddressMask.ContainsExactly` | src/core/filter/mod.rs:48-59 | a block contains an address exactly when they agree on the bits the prefix covers |
| `AddressMask.NestedOrDisjoint` | src/core/filter/mod.rs:48-59 | of two blocks sharing an address, the one with the longer prefix lies inside the other |
| `ClientFilter.Filter.IsBlocked` | src/core/filter/mod.rs:140-159 | the flag of the first rule containing an IPv4 client decides; with none, and for IPv6, blocked exactly when some expression matches or a block entry and no allow entry covers the name; the global counter grows by one exactly for list blocks |
| `ClientFilter.FirstMatchMeaning` | src/core/filter/mod.rs:142-148 | no rule applies exactly when none contains the client, and an applied flag is that of the first containing rule |
| `ClientFilter.OrderIrrelevant` | src/core/filter/mod.rs:88-98 | if overlapping rules agree on their flag, every permutation of the rules gives the same decision |
| `ClientFilter.OrderMatters` | src/core/filter/mod.rs:88-98 | if two overlapping rules disagree, two permutations decide some client differently, whatever is asked |
| `ResponseCache.Cache.LookUp` | src/core/cache/mod.rs:110-120 | answers from any present entry with its bytes and raised hit count, marked stale exactly from expiry to the end of the serve-stale window, and changes nothing but that entry's hit fields and the hit counter |
| `ResponseCache.Cache.LookUpWithMetrics` | src/core/cache/mod.rs:131-145 | as the plain lookup, exactly one of hits and misses grows by one, and so does the process-wide counter of the same name |
| `ResponseCache.Cache.EvictLru` | src/core/cache/mod.rs:181-186 | removes the head of the order list and its entry |
| `ResponseCache.Cache.Insert` | src/core/cache/mod.rs:156-178 | the eviction loop ends, evicts the oldest insertion exactly when full, and leaves the key newest and the cache coherent |
| `ResponseCache.Cache.RemoveAll` | src/core/cache/mod.rs:197-200 | the removal loop takes out exactly the given keys from map and list, in any iteration order |
| `ResponseCache.Cache.ReapExpired` | src/core/cache/mod.rs:189-201 | removes exactly the entries older than TTL and stale window together and keeps coherence |
| `ResponseCache.Cache.RecordMissed` | src/core/cache/mod.rs:224-230 | raises the cache's miss counter and the process-wide one by one, and nothing else |
| `ResponseCache.Cache.ClearAll` | src/core/cache/mod.rs:297-302 | empties map and list and resets both counters |
| `ResponseCache.InsertedCoherent` | src/core/cache/mod.rs:156-178 | with size at least 1, an insertion keeps coherence and the inserted key is present and last in order |
| `ResponseCache.ReachableInvariant` | src/core/cache/mod.rs:97-302 | in every state reached from `new`: no duplicate in the order list, which lists exactly the map's keys by insertion time; at most `size` entries; live hit counts sum to at most `hits` |
| `ResponseCache.MeteredLookupsCounted` | src/core/cache/mod.rs:131-145 | over a run of inserts, metered lookups and reaps, hits plus misses is the number of metered lookups |
| `ResponseCache.StaleFlagExact` | src/core/cache/mod.rs:53-60 | in clock terms: the flag is set exactly while the age of the entry is between its TTL and TTL plus window, so a fresh answer is unmarked and so is one past the window |
| `ResponseCache.LookedUpExactly` | src/core/cache/mod.rs:110-120 | a lookup leaves the eviction order and every other entry alone |
| `ResponseCache.InsertedExactly` | src/core/cache/mod.rs:156-178 | an insertion drops the entry at the head of the order exactly when the cache is full, and changes no other |
| `ResponseCache.ExpiredExactly` | src/core/cache/mod.rs:43-55 | an entry is expired exactly from insertion time plus TTL on |
| `ResponseCache.ReapedExactly` | src/core/cache/mod.rs:189-201 | what survives a reap, in clock terms, and that it is unchanged |
| `ResponseCache.PrefetchExactly` | src/core/cache/mod.rs:233-245 | a refresh is due exactly when prefetch is on and a hit entry expires within `prefetch` seconds per hit |
| `ResponseCache.ExpiredHitWantsPrefetch` | src/core/cache/mod.rs:233-245 | with prefetch on, a hit on an expired entry asks for a refresh then and at any later time until replaced |
| `CacheHistory.ByLastInsertionMeaning` | src/core/cache/mod.rs:171-177 | the reference order lists every inserted key once, by position of last insertion |
| `CacheHistory.EvictionFollowsHistory` | src/core/cache/mod.rs:156-186 | after any run of inserts and lookups the order list is determined by the insert history: the last min(size, known keys) of the reference order, or one less exactly when the history has lost a slot |
| `CacheHistory.SlotLostExactly` | src/core/cache/mod.rs:158-174 | the cache holds fewer than min(size, known keys) entries exactly when `size` keys were known before the last insertion and it repeated one of the size - 1 most recent of them |
| `CacheHistory.SlotLostWitness` | src/core/cache/mod.rs:158-174 | two slots and inserts a, b, b leave only b |
| `CacheHistory.RetentionExactly` | src/core/cache/mod.rs:156-186 | an inserted key is cached exactly when fewer than `size` distinct others were inserted since, or fewer than size - 1 if the history has lost a slot |
| `CacheHistory.EntryIsLastInsert` | src/core/cache/mod.rs:97-302 | after any run of all operations an entry holds the bytes and TTL of its key's last insertion, from that moment, with one hit for every lookup of the key since |
| `CacheSnapshot.LoadSnapshot` | src/core/cache/mod.rs:280-293 | the load loop builds the value of inserting each tuple and restoring its hit count, in a cache of capacity max(n, 100), a serve-stale window of 30 seconds and prefetch off |
| `CacheSnapshot.LoadedCoherent` | src/core/cache/mod.rs:280-293 | loading yields a coherent cache with zero counters, whatever the file lists |
| `CacheSnapshot.LoadEvictsNothing` | src/core/cache/mod.rs:281-291 | every key the file lists is in the loaded cache |
| `CacheSnapshot.LoadedContents` | src/core/cache/mod.rs:285-292 | a loaded cache holds, for each key, the last tuple naming it |
| `CacheSnapshot.SaveLoadRoundTrip` | src/core/cache/mod.rs:248-294 | for any entries and any iteration order, save then load restores the keys, bytes and hit counts with TTL cut to whole seconds and counted from the load, in a coherent cache with the configuration of a load |
| `Forwarder.SynthesizeDnameCnames` | src/core/resolver/forward.rs:636-656 | the loop yields the redirects of the records in order |
| `Forwarder.RedirectsMeaning` | src/core/resolver/forward.rs:636-656 | there is a redirect for every ANAME pointing elsewhere, each with that record's TTL and target, and none to the name itself |
| `Forwarder.CnamesExactly` | src/core/resolver/forward.rs:479-490 | CNAMEs are counted one by one, and the first gives the target of the chase |
| `Forwarder.Dns64Meaning` | src/core/resolver/forward.rs:356-414 | every synthesized record embeds an A record of the reply and outlives none of them, and every A record that can be embedded yields one |
| `Forwarder.FreshExactly` | src/core/resolver/forward.rs:459-466 | an entry is unexpired exactly while every stored record is within its own TTL counted from the store |
| `Forwarder.ProbeUnderLock` | src/core/resolver/forward.rs:259-313 | the locked probe performs one metered lookup, decodes the hit and reports whether a refresh is due |
| `Forwarder.StoreUnderLock` | src/core/resolver/forward.rs:452-473 | the locked store inserts the encoded records under the shortest TTL, or nothing if they do not encode |
| `Forwarder.RunSafe` | src/core/resolver/forward.rs:136-473 | every interleaving of lookups, ANY lookups, prefetches and arbitrary replies from an empty cache keeps the safety invariant |
| `Forwarder.EntryHistory` | src/core/resolver/forward.rs:252-473 | after any run, an entry is the latest store for its key, made by a task that had asked upstream for that name and type, decodes to the stored records, has the shortest of their TTLs or 300 seconds if there are none, and while unexpired holds no record past its TTL |
| `Forwarder.AnswerHistory` | src/core/resolver/forward.rs:301-308 | after any run, every answer from the cache repeats a store for the same name and type, and is expired exactly if some record outlived its TTL |
| `Forwarder.ProbeServesLatest` | src/core/resolver/forward.rs:258-308 | a lookup finding its key cached finishes with exactly the latest stored records |
| `ForwarderHistory.RedirectsExactly` | src/core/resolver/forward.rs:636-656 | the redirects of a list are those of its records in order: one CNAME for an ANAME pointing elsewhere, none for anything else |
| `ForwarderHistory.EmbeddedExactly` | src/core/resolver/forward.rs:374-411 | embedding goes record by record in order: one AAAA for an A record that can be embedded, none for anything else |
| `ForwarderHistory.Dns64Exactly` | src/core/resolver/forward.rs:372-413 | the DNS64 records are the embeddings of the reply's A records, all under the shortest TTL of its A records; none without a reply |
| `ForwarderHistory.TaskHistory` | src/core/resolver/forward.rs:136-528 | after any run, every task's state, its queries in order and its answer are determined by why it was started and by the replies to its queries: a lookup answers from the cache, or fails, or returns its first reply, or with DNS64 all that it stored and chased; an ANY lookup tries A, then AAAA; a refresh answers nobody |
| `ForwarderHistory.StoreHistory` | src/core/resolver/forward.rs:165-473 | after any run, every store comes from upstream's replies to its maker: whole for a refresh and an ANY lookup; for a plain lookup its first reply, then the embedded records of the second where DNS64 applies, then the redirects of both, within the chain limit |
| `ForwarderHistory.LockStores` | src/core/resolver/forward.rs:452-473 | a task about to store does so under the lock with the shortest TTL, unless its records do not encode |
| `ForwarderHistory.EntryFromUpstream` | src/core/resolver/forward.rs:252-473 | after any run, a cached entry decodes to records that its task heard from upstream as `StoreHistory` says |
| `ForwarderAgreement.ReturnedIsStoredExactly` | src/core/resolver/forward.rs:420-528 | what a miss returns equals what it stored exactly when, without DNS64 records, no ANAME points elsewhere, and with them, chasing the CNAME added nothing |
| `ForwarderAgreement.RunsByReplies` | src/core/resolver/forward.rs:475-528 | whatever other tasks do, a lookup that has stored its answer goes on by upstream's replies to it alone: its A and AAAA reply for the first CNAME's target, then it ends |
| `ForwarderAgreement.HitMissAgreement` | src/core/resolver/forward.rs:258-528 | over any steps after a store, a lookup of the same name and type that probes while the store is cached and the latest finishes with the stored records; once the storing lookup has finished, the two answers are equal exactly under that condition |
| `ForwarderAgreement.RedirectOnlyOnHit` | src/core/resolver/forward.rs:420-528 | a run in which upstream answers one ANAME: the miss returns it alone, the next lookup returns it with its redirect |
| `ChainLimit.PlainAnswerExactly` | src/core/resolver/forward.rs:301-528 | a plain lookup's answer is over the limit exactly when it was served from a latest store that is, or carries DNS64 records and the stored and chased CNAMEs together exceed the limit; a forwarded answer never is |
| `ChainLimit.StoresStayWithin` | src/core/resolver/forward.rs:439-473 | with prefetch off and no ANY call, every store of every run is within the limit |
| `ChainLimit.OverlongChainsBypassed` | src/core/resolver/forward.rs:439-444 | in any run, a stored chain over the limit was not stored by a plain lookup, and prefetch is on or there was an ANY call |
| `ChainLimit.AnyEscapesLimit` | src/core/resolver/forward.rs:165-195 | an ANY lookup stores such a chain and the next plain lookup returns it |
| `ChainLimit.PrefetchEscapesLimit` | src/core/resolver/forward.rs:268-298 | with prefetch on, a run without ANY calls stores such a chain and a plain lookup returns it |
| `ChainLimit.ChaseEscapesLimit` | src/core/resolver/forward.rs:475-528 | with an address to embed and at least one CNAME allowed, a run without ANY calls returns an answer whose stored part passed the check and whose chased part is over the limit |
| `ChainLimit.ChainLimitExactly` | src/core/resolver/forward.rs:165-528 | over all runs without ANY calls, stores stay within the limit exactly if prefetch is off, and answers exactly if besides no CNAME is allowed or DNS64 can embed no address; with ANY calls some run goes over |
| `Forwarder.ExpiredHitRefreshes` | src/core/resolver/forward.rs:264-299 | with prefetch on, a lookup hitting an expired entry starts a refresh for the same name and type |
| `Forwarder.RefreshExactly` | src/core/resolver/forward.rs:264-299 | a lookup starts a refresh exactly when prefetch is on, its key is cached and the entry expires within `prefetch` seconds per hit, this one included |
| `Forwarder.NeverAsksAny` | src/core/resolver/forward.rs:238-242 | in no run does a query of type ANY reach upstream or the cache, the chained A query and the queries for a CNAME's target included |
| `QnameMinimization.PeelLabels` | src/core/resolver/qname_min.rs:111-126 | yields the suffixes of the name down to the root |
| `QnameMinimization.SuffixAt` | src/core/resolver/qname_min.rs:107-126 | there are n + 1 suffixes and the i-th has i labels less |
| `QnameMinimization.ProbeOnce` | src/core/resolver/qname_min.rs:169-211 | one turn keeps: carried records and name are those of the last positive probe, carried error that of the last probe, eight-bit step count not truncated |
| `QnameMinimization.ProbeAll` | src/core/resolver/qname_min.rs:164-211 | the loop issues exactly the first suffixes in order and carries the last positive answer |
| `QnameMinimization.ResolveWithMinimization` | src/core/resolver/qname_min.rs:133-256 | the driver returns the last positive probe, else the plain lookup's outcome, with its queries and counter growth |
| `QnameMinimization.Queries` | src/core/resolver/qname_min.rs:154-235 | one probe if the cap is 0, else min(cap, n + 1), from the full name down one label at a time, and a plain query after them exactly if none was positive |
| `QnameMinimization.Cost` | src/core/resolver/qname_min.rs:154-255 | counter growth equals the queries issued exactly on success, and is one less on failure; steps and fallback are reported as made |
| `QnameMinimization.AnswerExactly` | src/core/resolver/qname_min.rs:133-255 | the result is the records and name of the last positive probe, else those of the plain query; the root is refused unasked |
| `QnameMinimization.AgreesExactly` | src/core/resolver/qname_min.rs:169-255 | against an unchanging upstream, the result agrees with the plain lookup exactly when the shallowest positive probed proper suffix, if any, has the full name's answer |
| `QnameMinimization.PreservesMeaning` | src/core/resolver/qname_min.rs:169-255 | with no positive probed proper suffix, same records or both fail |
| `QnameMinimization.ErrorSurfacedExactly` | src/core/resolver/qname_min.rs:221-235 | a run fails exactly when nothing was positive and the plain query failed, and reports the last probe's error if that probe failed, else the plain query's |
| `QnameMinimization.ParentAnswerWins` | src/core/resolver/qname_min.rs:188-195 | a two-label name resolves to its parent's record |
| `QueryLog.QueryLogWriter.Log` | src/core/log/query_log.rs:111-113 | queues the event, or drops it when 1024 are waiting |
| `QueryLog.QueryLogWriter.OnReceive` | src/core/log/query_log.rs:85-91 | moves the oldest queued event to the buffer and flushes a full buffer |
| `QueryLog.QueryLogWriter.OnTick` | src/core/log/query_log.rs:92-97 | flushes a non-empty buffer |
| `QueryLog.Conservation` | src/core/log/query_log.rs:78-113 | in every run, batches, buffer and channel together are the accepted events in order; batches hold 1 to max(1, buffer_size) events |
| `QueryLog.FlushExactly` | src/core/log/query_log.rs:83-98 | a batch goes out exactly on a tick with something buffered, or on the receive that fills the buffer, and holds just that |
| `QueryLog.ShortBatchesNeedTicks` | src/core/log/query_log.rs:83-98 | in every run there are at most as many batches below max(1, buffer_size) as ticks |
| `QueryLog.QueuedEventsAreFlushed` | src/core/log/query_log.rs:83-98 | after any steps with at least as many receives as events queued, one tick has flushed everything logged before, in order |
| `TcpFraming.ReadLoop` | src/net/tcp.rs:78-98 | the reader delivers the complete frames of the stream |
| `TcpFraming.WriteLoop` | src/net/tcp.rs:182-187 | the writer sends each message's 16-bit length and bytes in turn |
| `TcpFraming.PrefixDelivery` | src/net/tcp.rs:78-98 | after any number of bytes of a well-formed stream exactly the messages with complete frames are delivered |
| `TcpFraming.RoundTripExactly` | src/net/tcp.rs:78-98 | writing and reading back gives the same list exactly when every message has 1 to 65535 bytes |
| `TcpFraming.DeliveredIsPrefix` | src/net/tcp.rs:78-98 | any stream is the frames of what is delivered followed by a rest with no complete frame |
| `AxfrClient.Absorb` | src/core/zone/secondary.rs:97-123 | the inner loop keeps all answers so far without any SOA after the first |
| `AxfrClient.TakeResponse` | src/core/zone/secondary.rs:89-131 | one decoded response extends the records, refuses on an error code, and says to stop exactly with TC clear and an SOA seen |
| `AxfrClient.AxfrRecords` | src/core/zone/secondary.rs:64-139 | the response loop returns the specified transfer or the first error met |
| `AxfrClient.KeepFirstSoaMeaning` | src/core/zone/secondary.rs:101-122 | every other record stays in order, and of the SOA records exactly the first |
| `AxfrClient.TransferStops` | src/core/zone/secondary.rs:125-131 | a transfer is the answers up to the first message with TC clear by which an SOA arrived, whatever follows |
| `AxfrClient.TransferRunsOut` | src/core/zone/secondary.rs:69-81 | with no such message it is all answers up to an end of stream, at a frame boundary or one byte past it, or up to a zero-length frame |
| `AxfrClient.CompleteExactly` | src/core/zone/secondary.rs:64-131 | the client returns the whole zone exactly when it met no stop or the messages after the first stop hold only SOA records |
| `AxfrClient.SucceedsExactly` | src/core/zone/secondary.rs:69-131 | on any bytes: the transfer succeeds exactly when, after messages that are NoError and do not stop it, the stream ends cleanly, a zero length stands or a stopping message comes |
| `AxfrClient.FailsExactly` | src/core/zone/secondary.rs:69-95 | it fails with a given error exactly when, after such messages, the stream fails before a length, ends inside a body, or brings a body that does not decode or a message with an error code |
| `AxfrClient.SingleMessageZone` | src/core/zone/secondary.rs:97-131 | a zone in one message comes back whole with one SOA |
| `AxfrClient.SplitZoneCutShort` | src/core/zone/secondary.rs:125-131 | a first message with TC clear and the opening SOA ends the transfer with that message's records |

## Left out

- Library code (name and message codecs, address parsing, regular expressions, the resolver, DNSSEC, JSON): parameters with a round-trip assumption where decoding must undo encoding; JSON is taken to carry the list unchanged.
- Clocks and timeouts: `now` is a parameter; a read timeout is the end of the stream.
- Fetching: a fixed snapshot of texts, so a source that changes during a load is not modelled.
- Counter overflow: `hits`, `misses`, `hit_count` and metric counters are unbounded, not 64-bit.
- Names with a leading wildcard label and the fully-qualified flag: the library counts their labels differently; names are plain label lists, the root being the empty one.
- Client subnets in cache keys: `extract_ecs_scope` always returns nothing, so keys carry none.
- DNS64 embedding: an address map given as a parameter; no claim about prefix layout.
- Database writes: a batch handed to `flush` is the output; what the database does with it is not modelled.
- `Ipv4Cidr` parsing, sinkhole addresses, rebinding detection (it only logs) and configuration defaults: thin branching over library calls.
- PROXY protocol handling, the API, authentication, DHCP, cluster, certificates, key generation, zone editing, catalog zones and NOTIFY: wrappers, stubs or library calls.
- `Forwarder.RunSafe`: starts from an empty cache; a cache loaded from disk has no store log to trace entries to.
- Upstream queries of minimization: `Forwarder` logs the query for the name itself; the probes for its suffixes carry the same type and are modelled in `QnameMinimization`.
- The target of a CNAME is asked for as it stands; the fallback to the root for a target that is not ASCII is not modelled.
