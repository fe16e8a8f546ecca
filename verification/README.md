# Verified model of BashLume's completion back end

BashLume completes shell words inside Readline. Its back end is a byte-bounded
cache that talks to two worker threads, a streaming ranked matcher, a set of
hand-written shell scanners, a borrowed Readline timer and hook, and a binary
rule-pack format. This project models those parts in Dafny and proves what they
rely on.

The two worker protocols are state machines over the steps of both threads:
bounded queues, the phases of the worker between its tests and its receives,
and every interleaving. The cache, the sink, the decoder, the loader and the
plugin globals are classes whose methods update their fields; loops of the
source are methods with loops, each proved against a function or a relation that
says what it computes. Constants, branches, error cases and orders of checks are
those of the source.

## Modules

- `ProbeProtocol`, `RuleProtocol`, `RuleQueues`: the cache's main thread against the probe
  worker and against the rule half of the cache worker and its replacements.
- ScanFreshness: tokens and generations of directory scans.
- `LruMaps`, `CacheState`, `CacheSteps`, `CompletionCache`: the byte accounting
  of the whole cache, eviction, reservations, and runs of every public step.
- `RuleDiscovery`, `RuleLoad`, `LoadFits`: discovery of the packs and one command's load, in
  the worker.
- `Matcher`, `TextOrder`, `Ranking`, `CandidateSink`, `PrefixScan`: matching,
  ranking, the streaming sink, directory scans and their reuse.
- `ShellWords`, `ShellGrammar`: word boundaries, quoting and dequoting, and what they mean for words of quoted
  and unquoted pieces.
- EventTimeout: the keyboard timeout and the event hook.
- PackIndex: the index and the section layout of a pack. Utf8: which names are text.
- `ScriptGroups`, `DynamicTargets`: the pack compiler's grouping and data flow.
- SshGlob: host patterns. `MenuLayout`: the menu.

## What the code does not promise

Some statements that the code or its comments suggest are false. Each has a
concrete counterexample and the condition under which it holds.

- A shorter cached scan is called a lossless superset. It is one exactly when the
  shorter prefix is not empty or the longer one does not start with a dot
  (`PrefixScan.StandInIsExact`).
- Refreshing a resolved filesystem request whose key was pinned while the request
  was pending can exceed the byte limit; it does so exactly when what may not be
  evicted no longer fits (`CompletionCache.CompletionCache.ReceiveFilesystem`,
  `CompletionCache.PinnedRefreshOvershoots`).
- The streaming sink returns what sorting the whole batch returns if its candidates
  are pairwise coherent: a better score never comes with a worse class, equal
  scores come with the same class and display, and no source earns the other a
  bonus. A pair that is not coherent streams differently in some company
  (`CandidateSink.CoherenceIsExact`).
- The budget of a load is meant to leave room for the admission reserve that
  returns when requests are cancelled. It does exactly if it is positive, or if
  what the cancelled admissions give back makes up for the reserve. A request that
  waits while a scan fills the cache is sent with a budget of zero, and cancelling it
  needs more than the limit (`CacheSteps.CancellingALoad`,
  `CompletionCache.ZeroBudgetLoad`).
- The scores of the five kinds of match are layered, but not for all lengths that a candidate may have: a late
  occurrence in a long name scores below a scattered match (`Matcher.LateOccurrenceLoses`). Layers other than the
  scattered one never overlap, and that one lies below the others for queries and names of ordinary length
  (`Matcher.StrongerScoresHigher`); the order of results does not rest on it, since classes are compared first.
- An inserted value is found again, at the same word start, unless it is unquoted,
  starts with `#` and contains a newline, comments being on. A leading `#` without a
  newline changes neither word start nor query (`ShellWords.ReanalysisFindsValue`,
  `ShellWords.CommentIsNotFoundAgain`);
  whether such a word is completed is decided by `lex_shell`, which reads a comment
  there and is not part of this model.
- A foreign write of the very timeout that is installed goes unnoticed. It is kept
  exactly if that value was to be restored anyway, or if the timeout is lent to a
  chained hook and the callback ends before anything else asks for the timeout
  (`EventTimeout.WriteIsKept`); otherwise it is lost (`EventTimeout.SameWriteLostAndKept`).
- An accepted pack index can be encoded again exactly if no name holds a NUL
  (`PackIndex.ReencodingNeedsNoNul`, `PackIndex.NulNameIsAccepted`).
- The bounded rounds of the pack compiler reach the least fixpoint if they end
  unchanged, which they do without calls through variables. Three functions that
  call each other through variables need more rounds than the bound allows
  (`DynamicTargets.PropagateAssignments`, `DynamicTargets.BoundIsTooSmall`).

## Model

| member | source | states |
|---|---|---|
| ProbeProtocol.ExecuteInv | src/completion/worker.rs:2985-3087 | every interleaving of main-thread and probe-worker steps, with bounded queues and dropped wake-ups, keeps the protocol's invariant |
| ProbeProtocol.MaskCoversLiveProbes | src/completion/worker.rs:1833-1849 | in every reachable state the mask is held exactly when a probe is pending or a cancellation is unacknowledged, and it is held whenever the attached worker runs a probe |
| ProbeProtocol.BlockedWorkerIsCurrent | src/completion/worker.rs:2996-3058 | a worker waiting on an empty queue has seen the current generation, even when a wake-up was dropped |
| ProbeProtocol.CurrentRunIsNeverDiscarded | src/completion/worker.rs:3020-3058 | no request of the current generation is discarded |
| ProbeProtocol.PendingProbesAreConserved | src/completion/worker.rs:2451-2541 | a pending probe is always in exactly one place: queued, running, or on its way back |
| ProbeProtocol.QuietMeansIdle | src/completion/worker.rs:1733-1749 | once nothing is pending or unacknowledged, the worker runs nothing, so a command may start |
| ProbeProtocol.Collect | src/completion/worker.rs:3065-3085 | reports exactly the polled probes that run, each once, and forgets exactly those |
| ProbeProtocol.PolledProbesAreReported | src/completion/worker.rs:3059-3087 | after a poll no finished probe runs any more, each that ran is about to be reported, and every other still runs |
| ProbeProtocol.TakenProbeStartsOrIsRefused | src/completion/worker.rs:3020-3058 | a current request starts its probe, or is reported as refused |
| ProbeProtocol.EverythingComesToRest | src/completion/worker.rs:2985-3087 | from every reachable state the worker and the receiving main thread alone reach rest: nothing pending, no cancellation unanswered, no admission left, no mask |
| ProbeProtocol.ProbeEnds | src/completion/worker.rs:2451-2529 | the run of one probe, from its submission to its result, which frees key, admission and mask |
| RuleProtocol.ExecuteInv | src/completion/worker.rs:3121-3151 | every interleaving with the cache worker, including its reordering of requests, and every restart keep the protocol's invariant |
| RuleProtocol.EveryLoadIsAnsweredOnce | src/completion/worker.rs:3354-3532 | loads sent equal terminal replies consumed, loads given up with their worker, and loads still on their way, so each load gets exactly one reply |
| RuleProtocol.RuleRequestsAreExclusive | src/completion/worker.rs:1319-1326 | at most one load or discovery is anywhere between send and consumption, and it holds the reservation |
| RuleProtocol.PublishedProgramsAreCurrent | src/completion/worker.rs:2256-2271 | over every run published programs are those of the store discovered under the current generation, as are those of every current accepted reply; replies of rejected and cancelled loads carry none |
| RuleProtocol.LoadIsPublished | src/completion/worker.rs:3456-3475 | the run of one load, from a configured store: accepted it publishes the store's programs, rejected it publishes nothing, and credit and reservation come back |
| RuleProtocol.EverythingComesToRest | src/completion/worker.rs:3121-3151 | from every reachable state with a worker, it and the receiving main thread alone reach rest: every load answered, every reservation given back, every reply acknowledged |
| RuleProtocol.OneUnacknowledgedReply | src/completion/worker.rs:3456-3483 | over all runs, with restarted, lost and stopped workers, at most one reply is unacknowledged |
| RuleProtocol.NewGenerationAfterRestart | src/completion/worker.rs:1395-1424 | a worker replaced while a reply was unacknowledged starts with its credit |
| RuleProtocol.RetryKeepsTheWorker | src/completion/worker.rs:1552-1562 | in every reachable state a deferred discovery may still fit, so retrying it never restarts the worker |
| RuleProtocol.CoalescingKeepsTickets | src/completion/worker.rs:3162-3222 | coalescing scans never drops or duplicates a rule request |
| RuleProtocol.CoalescingKeepsOthers | src/completion/worker.rs:3162-3222 | coalescing takes the equal scans and leaves every other request as often as it was |
| RuleQueues.QueuesAreBounded | src/completion/worker.rs:3100-3151 | over every run the queues and the pending commands are within their bounds, and what is deferred is pending |
| RuleQueues.DeferredLoadIsSent | src/completion/worker.rs:1564-1589 | a deferred load that is due goes out under the current generation and holds the reservation |
| RuleQueues.OnlySupersededLoadsAreCancelled | src/completion/worker.rs:3354-3380 | over every run only loads of earlier generations are reported as cancelled |
| ScanFreshness.ScanCache.RefreshDirectory | src/completion/worker.rs:1871-1926 | after a refresh no installed or acceptable scan of the directory predates it |
| ScanFreshness.ScanCache.Enqueue | src/completion/worker.rs:1974-2034 | tokens are never reused; replacing or evicting a pending scan cannot make an old reply acceptable |
| ScanFreshness.ScanCache.PruneGenerations | src/completion/worker.rs:1879-1890 | pruning forgets only directories that no entry, pending mark or deferred scan mentions |
| ScanFreshness.ScanCache.ReceiveScan | src/completion/worker.rs:2069-2127 | a reply is installed only if it answers the key's present token under the present generation |
| ScanFreshness.Run | src/completion/worker.rs:1871-2127 | over every run no installed scan answers a request that predates the latest refresh of its directory |
| LruMaps.SumUpdated | src/completion/worker.rs:2109-2122 | replacing an entry changes a sum by the difference of the two |
| LruMaps.Oldest | src/completion/worker.rs:2816-2825 | finds the least recently used unprotected entry, and none exactly if all are protected |
| LruMaps.EvictExcess | src/completion/worker.rs:2803-2862 | brings a map within its count, evicting only unprotected entries, oldest first, and no more than needed |
| CacheState.RemoveIsValid | src/completion/worker.rs:2912-2938 | removing an entry takes exactly its bytes off the counter, which holds them |
| CacheState.EvictsNext | src/completion/worker.rs:2863-2942 | one eviction keeps the order of use across all four kinds, and was needed |
| CacheState.EvictionAccounts | src/completion/worker.rs:2802-2962 | eviction ends within the limit, or with nothing left that it may evict |
| CacheState.EvictionMakesRoom | src/completion/worker.rs:2863-2962 | eviction makes room exactly if what it may not touch leaves it |
| CacheState.LatestGoesLast | src/completion/worker.rs:2863-2942 | the entry used last outlives every other one that may be evicted |
| CacheState.NewestStays | src/completion/worker.rs:2826-2840 | a newly published entry is never the one that the count limit evicts |
| CacheState.FloorIsBelow | src/completion/worker.rs:2748-2757 | what may not be evicted is a lower bound, reached when all that may be is gone |
| CacheSteps.ProbeAdmittedIsValid | src/completion/worker.rs:1830-1833 | a probe that is not pending has no admission under the current generation, so none is overwritten |
| CacheSteps.ReplacingConfigurationIsFree | src/completion/worker.rs:1387-1409 | retained configuration and the room for its growth always add up to the same |
| CacheSteps.DiscoveryReservesTheRest | src/completion/worker.rs:1328-1350 | a discovery reserves exactly what the limit leaves |
| CacheSteps.CancellingALoad | src/completion/worker.rs:1543-1550 | exactly when cancelling the requests during a load stays within the limit |
| CacheSteps.FilesystemInstalledFloor | src/completion/worker.rs:2137-2159 | an unpinned answer adds nothing that cannot be evicted, a pinned one exactly its growth |
| CompletionCache.CompletionCache.EvictLeastRecentlyUsed | src/completion/worker.rs:2863-2942 | evicts by least recent use over four maps, never a protected entry, and not one entry too many |
| CompletionCache.CompletionCache.DropDiagnostics | src/completion/worker.rs:2943-2961 | drops the earliest diagnostics, rule before probe, while the rest does not fit |
| CompletionCache.CompletionCache.EvictToLimit | src/completion/worker.rs:2802-2962 | ends within counts and limit, or with only protected entries and no diagnostics |
| CompletionCache.CompletionCache.ReceiveScan | src/completion/worker.rs:2091-2127 | installs, accounts and evicts without passing the limit |
| CompletionCache.CompletionCache.DropDirectories | src/completion/worker.rs:1898-1911 | gives back exactly the bytes of the dropped scans |
| CompletionCache.CompletionCache.FilesystemValues | src/completion/worker.rs:1106-1171 | when a request is answered, pinned, asked for and pending, without ever evicting a pinned key |
| CompletionCache.CompletionCache.ReceiveFilesystem | src/completion/worker.rs:2128-2167 | keeps the limit for unpinned keys, and for pinned ones exactly when the pinned bytes still fit |
| CompletionCache.PinnedRefreshOvershoots | src/completion/worker.rs:1156-1164 | a run that ends above the limit: pinned while pending, then refreshed with a large answer |
| CompletionCache.ZeroBudgetLoad | src/completion/worker.rs:1552-1589 | a run, for every limit that can be configured and every command below the longest: a full queue, a full cache, and a load sent with nothing to spend, whose cancellation passes the limit |
| CompletionCache.CompletionCache.RetrySnapshot | src/completion/worker.rs:1051-1096 | reserves the whole load before asking, exactly if it fits after eviction and the queue takes it; a refused request leaves no reservation |
| CompletionCache.CompletionCache.ReceiveSnapshots | src/completion/worker.rs:2168-2224 | releases the reservation; a current snapshot is installed exactly if it fits beside what may not be evicted, and dropped otherwise |
| CompletionCache.FirstSnapshot | src/completion/worker.rs:1051-1096 | a run from a new cache: at every limit that can hold it a snapshot is asked for, and installed if it fits |
| CompletionCache.CompletionCache.RecordRuleError | src/completion/worker.rs:1625-1651 | no duplicates, at most 128; beyond the limit the earliest go, and no more than needed |
| CompletionCache.CompletionCache.RecordProbeError | src/completion/worker.rs:1653-1695 | the latest that fit 128 and 64 KiB are kept, within the limit |
| CompletionCache.CompletionCache.ForgetWorker | src/completion/worker.rs:879-906 | gives back store, admissions and staged parts exactly, and all reservations |
| CompletionCache.CompletionCache.TrySendRuleDiscovery | src/completion/worker.rs:1319-1370 | sent exactly if nothing else is in flight, the request fits and the queue takes it; the reservation covers request and old store and fills the limit; a refusal restores everything |
| CompletionCache.CompletionCache.ConfigureRules | src/completion/worker.rs:1372-1443 | a new generation with nothing loaded or pending, within the limit; the configuration is kept exactly if it and the reserves fit beside what may not be evicted, and is then discovered at once or when there is room |
| CompletionCache.BoundedPaths | src/completion/worker.rs:549-570 | keeps, in order, exactly the paths that still fit beside the earlier kept ones, and says truly whether any was cut |
| CompletionCache.AllFit | src/completion/worker.rs:549-570 | paths that fit together are all kept |
| CompletionCache.CompletionCache.ConfigureRulePaths | src/completion/worker.rs:1372-1409 | the retained configuration holds the paths and keys that fit, the keys in what the paths leave, and a cut is reported |
| CompletionCache.FirstConfiguration | src/completion/worker.rs:1372-1443 | a run from a new cache: every configuration that can fit at all is kept and its discovery sent |
| CompletionCache.CompletionCache.RulePrograms | src/completion/worker.rs:1445-1541 | a load is sent exactly if the command is due and admitted and the queue takes it; no answer is final only without a worker or after a refusal; never past the limit |
| CompletionCache.CompletionCache.AdmitRule | src/completion/worker.rs:1476-1508 | admits, refuses for good exactly when it can never fit, or reports pressure exactly when it does not fit now |
| CompletionCache.CompletionCache.RetryDeferredRules | src/completion/worker.rs:1552-1589 | sends the least deferred command exactly if it is due, nothing else being under way; a deferred discovery comes first |
| CompletionCache.CompletionCache.ReceiveCatalog | src/completion/worker.rs:2225-2247 | a store within its reservation keeps the limit; stale catalogs only release theirs |
| CompletionCache.CompletionCache.ReceiveRules | src/completion/worker.rs:2248-2425 | exactly when a reply is stale, refused, staged or published: by its counts, and by its sizes beside what its command gives up; other commands keep what they had; never past the limit |
| CompletionCache.FirstLoad | src/completion/worker.rs:1445-1541 | a run from a new cache: a command asks, its load is sent, and a complete reply that fits is published whole |
| CompletionCache.CompletionCache.LoseWorker | src/completion/worker.rs:2042-2066 | writes off everything the worker owed |
| CompletionCache.CompletionCache.SetReplayReservation | src/completion/worker.rs:2551-2563 | a reservation never pushes the cache past its limit |
| CompletionCache.CompletionCache.AdmitProbe | src/completion/worker.rs:1810-1851 | admits and masks, refuses for good exactly when it can never fit, or defers |
| CompletionCache.CompletionCache.ProbeValues | src/completion/worker.rs:1788-1869 | an unexpired, pinned or fresh result is served without a new request, unless the probe had failed; any other is asked for again; at most 32 probes pend |
| CompletionCache.CompletionCache.RefreshProbe | src/completion/worker.rs:1810-1851 | when a missing or expired result is asked for, refused for good, or deferred |
| CompletionCache.CompletionCache.ReceiveOutcome | src/completion/worker.rs:2452-2529 | a current result ends its admission and is installed, as the latest entry, exactly if it fits beside what may not be evicted; else it is refused |
| CompletionCache.CompletionCache.ReceiveCancelled | src/completion/worker.rs:2530-2538 | exactly the admissions of earlier generations end |
| CompletionCache.CompletionCache.CancelProbes | src/completion/worker.rs:1714-1731 | forgets what is pending and keeps its admissions until they are acknowledged |
| CompletionCache.CompletionCache.ReplaceProbeWorker | src/completion/worker.rs:1750-1770 | the bytes of an unfinished worker move to the detached account, so nothing is freed under it |
| CompletionCache.CompletionCache.Reconfigure | src/completion/worker.rs:908-972 | a new limit cancels all requests and drops what can never fit, the snapshot exactly if what may not be evicted does not fit; the accounts end within it, or not above what could not be evicted before |
| CompletionCache.CompletionCache.RebaseWork | src/completion/worker.rs:923-939 | the worker is restarted exactly if its work or its store no longer fits the new limit |
| CompletionCache.CompletionCache.Stop | src/completion/worker.rs:2774-2800 | releases every reservation and request |
| CompletionCache.CompletionCache.Run | src/completion/worker.rs:738-805 | in every state of every run the counter is the sum of what it stands for, and without the named exception the accounted bytes stay within the limit |
| RuleDiscovery.DiscoveredIsValid | src/rules/loader.rs:112-225 | for all packs, keys and limits: the bytes counted are those of the packs and two copies of each summary, they fit, and the packs are those of the accepted summaries |
| RuleDiscovery.LeftOutDoesNotFit | src/rules/loader.rs:165-196 | a compatible pack is left out only if it does not fit |
| RuleDiscovery.SortedKeeps | src/rules/loader.rs:227-233 | sorting moves packs about and nothing more |
| RuleDiscovery.SortedIsOrdered | src/rules/loader.rs:227-233 | packs come by priority, then by identity |
| RuleDiscovery.BeforeOrders | src/rules/loader.rs:227-233 | higher priorities come first, then identities in lexicographic order |
| RuleDiscovery.VersionsAreNumbers | src/rules/loader.rs:851-853 | versions compare by major, minor and patch number |
| RuleDiscovery.CatalogIsWithinLimit | src/completion/worker.rs:3338-3351 | what the catalog reply accounts for is within the request's limit |
| RuleDiscovery.CatalogFitsReservation | src/completion/worker.rs:1328-1350 | the catalog fits the reservation that was made for its request |
| RuleDiscovery.DiscoverBoundedWhile | src/rules/loader.rs:112-235 | the loop discovers exactly that, or nothing if it is cancelled |
| RuleLoad.OutcomeIsBounded | src/completion/worker.rs:3397-3453 | every reply's programs and diagnostics are within the load's limit |
| RuleLoad.AcceptedCarriesAll | src/rules/loader.rs:277-335 | a reply that is not rejected carries every program of every matching block, in order |
| RuleLoad.Load.Emit | src/completion/worker.rs:3397-3493 | stages a part, or sends the one terminal reply |
| RuleLoad.LoadIncremental | src/rules/loader.rs:255-336 | with one block of lookahead, answers once with the outcome of all blocks, or stays silent if cancelled, which it asks before every pack, every further block and the end |
| RuleLoad.LoadRules | src/completion/worker.rs:3381-3532 | exactly one reply per load for all packs, limits and times of cancellation |
| LoadFits.LoadIsAccepted | src/completion/worker.rs:3397-3493 | a load of blocks without diagnostics is accepted exactly if every pack can be read, the blocks are few enough, and each fits behind the ones before it |
| Matcher.MatchesIffSubsequence | src/completion/matcher.rs:589-629 | a candidate matches exactly when the folded query is a subsequence of it |
| Matcher.LeftmostIsLeast | src/completion/matcher.rs:589-629 | the greedy search finds an embedding whenever one exists, and the leftmost |
| Matcher.FuzzyScore | src/completion/matcher.rs:589-629 | the plain loop computes the score of the greedy embedding |
| Matcher.TailPrefilter | src/completion/matcher.rs:496-508 | rejects only candidates that nothing could match |
| Matcher.MatchSubstringAndFuzzy | src/completion/matcher.rs:485-587 | the one-pass matcher equals the simple layers, whatever its comparison budget |
| Matcher.MatchScore | src/completion/matcher.rs:428-483 | class and score by what the match is: equal, a prefix, a prefix up to case, the first occurrence, or the leftmost scattered choice of characters; none exactly if there is no such choice |
| Matcher.ScoreExplains | src/completion/matcher.rs:428-483 | the simple definition has the class and score that the kind of match demands |
| Matcher.ClassIsExact | src/completion/matcher.rs:434-483 | each class stands for exactly one kind of match |
| Matcher.StrongerScoresHigher | src/completion/matcher.rs:434-483 | a stronger class scores higher, for all texts that are no scattered matches, and above scattered matches for queries of up to 6400 and occurrences in names of up to 6000 characters |
| Matcher.LateOccurrenceLoses | src/completion/matcher.rs:434-587 | an occurrence behind 40000 characters scores below a scattered match |
| Matcher.ShorterAndEarlierScoreHigher | src/completion/matcher.rs:434-587 | within a class the shorter prefix match, and among names of one length the earlier occurrence, scores higher |
| Ranking.BeforeIsTransitive | src/completion/matcher.rs:406-426 | the comparison is a strict order |
| TextOrder.LessIsLexicographic | src/completion/matcher.rs:412-426 | texts are compared at their first difference |
| Ranking.TopIsPrefix | src/completion/matcher.rs:389-403 | selecting the best and sorting them is sorting all and taking a prefix |
| Ranking.ShadowTop | src/completion/matcher.rs:360-362 | nothing that truncation discarded can matter to the best |
| Ranking.ShadowOffer | src/completion/matcher.rs:316-358 | one more candidate keeps what is held sufficient for the best |
| CandidateSink.PushedIsValid | src/completion/matcher.rs:302-363 | the sink stays below twice its limit, in one tier, with distinct insertion orders |
| CandidateSink.SortedValues | src/completion/matcher.rs:381-385 | both comparisons sort to the one order of ranks |
| CandidateSink.Sink.Push | src/completion/matcher.rs:302-363 | the effect of one push: numbering, tiers, merging and truncation |
| CandidateSink.Sink.Truncate | src/completion/matcher.rs:389-403 | exactly the best `limit` candidates remain |
| CandidateSink.Sink.Finish | src/completion/matcher.rs:365-387 | the `limit` held candidates that come before all others: stronger classes first, then own orders, scores, shorter displays, and lexicographic order |
| CandidateSink.BestIsHighest | src/completion/matcher.rs:316-358 | the batch keeps the highest score of every value |
| CandidateSink.StreamingEqualsBatch | src/completion/matcher.rs:302-404 | for every coherent sequence and limit, streaming returns the values, scores and order of the batch |
| CandidateSink.CoherenceIsExact | src/completion/matcher.rs:322-347 | coherent pairs, and only those, stream like a batch in every company |
| CandidateSink.Collect | src/completion/matcher.rs:284-404 | of any sequence: candidates of the strongest set alone, as many as there are values or places, in that order, each drawn from what was offered; for coherent candidates nothing is left out that comes before |
| CandidateSink.BeforeIsInOrder | src/completion/matcher.rs:406-426 | the comparison is the order of classes, own orders, scores, lengths and letters |
| CandidateSink.MergedCombines | src/completion/matcher.rs:316-347 | how two candidates for one value combine: text, score and bonus, description, sources, trailing space and order |
| PrefixScan.ScanDirectory | src/completion/worker.rs:3544-3607 | the truncating scan returns the best names in order, and says truly whether more were found |
| PrefixScan.FoundIffShown | src/completion/worker.rs:3552-3571 | a name is found exactly when its file is visible, matches and has the wanted kind |
| PrefixScan.ShownIff | src/completion/worker.rs:3552-3571 | a file is shown exactly if it is no dot file or dot files are asked for, the query's letters stand in its name in order, and it has the wanted kind |
| PrefixScan.ShorterMatches | src/completion/worker.rs:1948-1957 | what matches a longer query matches a shorter one |
| PrefixScan.RefinedIsFresh | src/completion/provider.rs:2264-2296 | filtering a complete shorter scan gives the names and scores of a fresh one |
| PrefixScan.StandInIsExact | src/completion/worker.rs:1948-1967 | the two prefixes alone decide whether that holds for every directory |
| PrefixScan.ChooseScan | src/completion/worker.rs:1928-1967 | the exact scan, else the complete one with the longest shorter prefix |
| ShellWords.CurrentWordStartAndQuote | src/completion/context.rs:525-623 | the loop computes the scanner's state at the point |
| ShellWords.WordEndIsFirstDelimiter | src/completion/context.rs:625-676 | a word ends at the first unquoted, unescaped delimiter, or with the line |
| ShellWords.CurrentWordEnd | src/completion/context.rs:625-676 | the loop finds that end |
| ShellWords.DequotePrefix | src/completion/context.rs:678-730 | the loop computes what the raw word stands for |
| ShellWords.WordsStartFresh | src/completion/context.rs:525-614 | every word starts outside quotes, escapes and comments |
| ShellWords.DoubleChainEscapes | src/completion/context.rs:735-742 | the chain of replacements escapes each character once |
| ShellWords.AnsiChainEscapes | src/completion/context.rs:743-746 | likewise for ANSI-C quotes |
| ShellWords.QuoteShellWord | src/completion/context.rs:732-780 | the quoted form of a value in each of the four modes |
| ShellWords.DequotedQuoted | src/completion/context.rs:678-780 | dequoting a quoted value gives it back, for every value and mode |
| ShellWords.ScanQuoted | src/completion/context.rs:546-611 | a quoted word is one word to the scanner |
| ShellWords.ScanComment | src/completion/context.rs:578-589 | a value read as a comment stays one word exactly if it has no newline |
| ShellWords.Analyze | src/completion/context.rs:39-66 | word start, end, query and quote mode of a line, which `ShellGrammar` says the meaning of |
| ShellGrammar.LastWordIsFound | src/completion/context.rs:525-623 | on every line of words made of plain, escaped and quoted pieces, the word starts behind the last operator or blank outside quotes |
| ShellGrammar.ScanWholeComment | src/completion/context.rs:578-589 | a comment reaches to the end of its line, where a new word starts |
| ShellGrammar.WordDequotes | src/completion/context.rs:678-730 | dequoting such a word gives what its pieces stand for |
| ShellGrammar.OpenQuoteIsSeen | src/completion/context.rs:525-623 | a quote that is open at the cursor is the one the scan reports |
| ShellGrammar.OpeningDecides | src/completion/context.rs:613-622 | the quote that opens the word decides the mode, else the one that is open |
| ShellGrammar.AnalysisFindsWord | src/completion/context.rs:39-66 | the analysis of such a line finds the start, the meaning and the mode of its last word |
| ShellGrammar.QuotedIsWord | src/completion/context.rs:732-780 | a quoted value is such a word: every character that the shell would read in that mode is escaped or enclosed, and no other is escaped |
| ShellWords.ReanalysisFindsValue | src/completion/context.rs:99-121 | exactly when analysing the new line finds the same word start and the inserted value |
| ShellWords.CommentIsNotFoundAgain | src/completion/context.rs:578-589 | on the empty line the value `#` with a newline is not found again, and `#` alone is |
| EventTimeout.TransparentMeansRestorable | src/plugin.rs:1647-1660 | the invariant says that giving the timeout back now restores the last foreign value |
| EventTimeout.InstalledKeeps | src/plugin.rs:1631-1645 | installing a value remembers the last foreign one |
| EventTimeout.RestoredKeeps | src/plugin.rs:1647-1660 | restoring leaves the last foreign value |
| EventTimeout.ConfiguredKeeps | src/plugin.rs:1694-1734 | replaces only the chained hook and restores it; any other foreign hook stays; the timeout stays restorable |
| EventTimeout.PreparedLends | src/plugin.rs:1011-1026 | the chained hook runs under the last foreign timeout |
| EventTimeout.FinishedIsSettled | src/plugin.rs:1029-1111 | a callback that ends loses nothing, whatever the chained hook wrote, nested callbacks included |
| EventTimeout.FinishedTakesEffect | src/plugin.rs:1029-1111 | a callback that still owns the hook ends with hook and timeout as it decides: 5000 us in the background, 1000 us for a menu, nothing if it needs none |
| EventTimeout.UnloadWaitsForCallbacks | src/plugin.rs:825-836 | an unload asked for inside nested callbacks is carried out when the outermost one ends, and not before |
| EventTimeout.UnloadedKeeps | src/plugin.rs:838-867 | after unloading, timeout and hook are what others wrote last |
| EventTimeout.UnloadAskedIsSettled | src/plugin.rs:825-836 | unloading inside a callback is deferred, and disowns every running callback |
| EventTimeout.ForeignWriteKept | src/plugin.rs:1638-1643 | a foreign write keeps the invariant exactly if it is noticed, harmless, or made while the timeout is lent |
| EventTimeout.WriteIsKept | src/plugin.rs:1050-1060 | over every run: exactly when an unnoticed foreign write survives |
| EventTimeout.SameWriteLostAndKept | src/plugin.rs:1638-1643 | one run that loses a write, and one that keeps the same write |
| EventTimeout.EveryRunIsValid | src/plugin.rs:1631-1660 | every run from the start, with writes lost or not, keeps the invariant |
| EventTimeout.DifferentWritesAreTransparent | src/plugin.rs:1638-1643 | if every foreign write differs from the installed value, none is lost, over every run from the start |
| EventTimeout.RunIsTransparent | src/readline_trampoline.c:134-147 | over every run that loses no write, what is not borrowed is what others wrote last, and ours chains to the last foreign hook |
| EventTimeout.Plugin.Run | src/plugin.rs:793-867 | the plugin's statements do this over every sequence of its operations and of foreign writes |
| PackIndex.EncodeIndex | src/rules/format.rs:779-803 | the encoded bytes, or an error exactly for an empty, long or NUL-holding name |
| PackIndex.IndexDecoder.Take | src/rules/format.rs:996-1007 | reads and advances, or fails without moving |
| PackIndex.ParseIndex | src/rules/format.rs:805-868 | every check in its order, with its error |
| PackIndex.ParsedEncoded | src/rules/format.rs:779-868 | parsing what was encoded gives the same names and blocks |
| PackIndex.EncodedParsed | src/rules/format.rs:805-868 | an accepted index is well formed and encodes to the same bytes |
| PackIndex.IndexIsCanonical | src/rules/format.rs:779-868 | an index is accepted with given contents exactly if they are well formed and it encodes them |
| PackIndex.LowestFirst | src/rules/format.rs:779-803 | numbers stand with their lowest byte first |
| Utf8.ValidIffEncoded | src/rules/format.rs:805-868 | a name is accepted as UTF-8 exactly if it encodes some string |
| PackIndex.ReencodingNeedsNoNul | src/rules/format.rs:788-790 | an accepted index can be encoded again exactly if no name holds a NUL |
| PackIndex.NulNameIsAccepted | src/rules/format.rs:805-868 | an accepted index that cannot be encoded again |
| PackIndex.FindBlock | src/rules/format.rs:597-602 | binary search finds what linear search finds |
| PackIndex.RegisterNames | src/rules/format.rs:675-684 | registers a block's names in order, and fails exactly if one is taken |
| PackIndex.LayCommands | src/rules/format.rs:670-699 | fails exactly for a name registered twice or a block that is too large; else every name leads to its block and every block entry finds its own bytes |
| PackIndex.WriteFields | src/rules/format.rs:719-743 | all fields stand, and the gaps between them stay zero |
| PackIndex.LaySections | src/rules/format.rs:704-743 | the aligned layout, or a limit error |
| PackIndex.LayoutOpens | src/rules/format.rs:243-307 | every section check passes on a built layout, and the sections come back unchanged |
| PackIndex.OpenedIffGood | src/rules/format.rs:232-301 | a file is opened exactly if its header is good and its sections follow one another to the end of the file within their limits, and the sections are its slices |
| PackIndex.Build | src/rules/format.rs:658-743 | accepts exactly distinct, usable names within all size limits, and what it accepts opens again to its manifest, and to every block under each of its names and no other |
| ScriptGroups.MergeStep | src/bin/bashlume-pack.rs:2936-2938 | merging keeps groups apart, connected and complete |
| ScriptGroups.AddModule | src/bin/bashlume-pack.rs:2922-2941 | one module joins; the restarting search terminates |
| ScriptGroups.GroupModules | src/bin/bashlume-pack.rs:2928-2942 | the groups partition the modules and are apart in registrations |
| ScriptGroups.GroupsAreComponents | src/bin/bashlume-pack.rs:2928-2941 | two modules share a group exactly when a chain of shared registrations links them |
| ScriptGroups.RegisterGroups | src/rules/format.rs:673-684 | fails exactly when a name stands in two groups |
| ScriptGroups.GroupAndRegister | src/bin/bashlume-pack.rs:2944-2946 | registering the groups never finds a duplicate |
| DynamicTargets.FunctionUpdates | src/bin/bashlume-pack.rs:1153-1184 | the updates that one function's calls cause |
| DynamicTargets.MergeUpdates | src/bin/bashlume-pack.rs:1185-1188 | merges all updates, and says truly whether anything changed |
| DynamicTargets.HoldersGrow | src/bin/bashlume-pack.rs:1151-1192 | each fact gains a holder every round until it has settled |
| DynamicTargets.RoundsSettle | src/bin/bashlume-pack.rs:1151-1192 | without calls through variables, as many rounds as functions settle everything |
| DynamicTargets.PropagateAssignments | src/bin/bashlume-pack.rs:1139-1192 | never above the least fixpoint; the least fixpoint if the loop ends unchanged, which it does without calls through variables |
| DynamicTargets.CallsAreFollowed | src/bin/bashlume-pack.rs:1153-1184 | at the fixpoint a callee sees what its caller sees, whether called by name or through a variable, and the caller what outlives the callee |
| DynamicTargets.FactsAreJustified | src/bin/bashlume-pack.rs:1153-1184 | every fact at a function is global, or comes from a caller or a callee |
| DynamicTargets.SelectsResolved | src/bin/bashlume-pack.rs:1230-1275 | which names a variable's value may stand for |
| DynamicTargets.BoundIsTooSmall | src/bin/bashlume-pack.rs:1151-1192 | three functions on which all seven rounds change something and the result is not the least fixpoint |
| SshGlob.StarMatchesAnySuffix | src/completion/worker.rs:3933-3938 | a star stands for any number of bytes |
| SshGlob.GlobStep | src/completion/worker.rs:3930-3961 | one pattern element moves the row as its meaning says |
| SshGlob.GlobMatch | src/completion/worker.rs:3926-3963 | accepts exactly what the pattern means, an unclosed bracket nothing |
| MenuLayout.RenderMenuText | src/render.rs:344-367 | draws the first characters that fit, and an ellipsis for the rest if a column is left; the counted columns are those drawn |
| MenuLayout.PlanIsSound | src/render.rs:170-196 | cells fit the width, rows hold the page and the budget, and the page holds the selected candidate |
| MenuLayout.RenderRow | src/render.rs:199-234 | one row draws exactly its candidates, each as far as its columns allow, and stays within the width |
| MenuLayout.RenderMenu | src/render.rs:155-249 | every candidate of the page is drawn once, by its own text, the selected one as such, within the row budget, and no row wider than the layout, one column short of the terminal but at least one; the selected description gets a row exactly if it is wanted |
| MenuLayout.CandidateShownWhole | src/render.rs:251-300 | the width measured for a candidate is the one it takes, and within it the candidate is drawn whole |
| MenuLayout.CaretNotation | src/render.rs:344-399 | control characters are drawn in caret notation |

## Left out

- Integers are unbounded: wrap-around of generations and clocks, and saturation of byte sums, are assumed not to occur; subtractions from the byte counter are shown never to saturate.
- Time: expiry ages, the 250 ms acknowledgement deadline and polling windows are nondeterministic choices.
- Probe workers across restarts: the probe protocol is proved per worker lifetime; probe workers that outlive their replacement are outside it, except for the detached bytes in `CompletionCache`.
- A cache worker that dies on its own is noticed at once in `RuleProtocol`; sends that fail in between are those of a full queue.
- Mask acquisition and thread start are assumed to do what they report; system calls, maps of files and signals are not part of this model.
- `CompletionCache` splits the cache's one structure by concern: scan tokens and generations are in `ScanFreshness`, the generation and mask races in the two protocol modules. Its sizes of decoded values are inputs.
- `CompletionCache` assumes of the workers what other modules prove: a current catalog answers a reservation (`RuleProtocol`) and fits it (`RuleDiscovery`), and acknowledged generations are not newer than the cache's (`ProbeProtocol`).
- Finding pack and key files, and opening them, are inputs of `RuleDiscovery`; files come sorted and without repetition.
- Keys of scans, filesystem requests and probes are opaque numbers in `CompletionCache`; rejected commands and probes are kept as sets of keys, so collisions of their hashes do not appear.
- ScanFreshness.Run: claims safety only; a key whose old reply is dropped may stay pending.
- Matcher.MatchScore: ASCII queries and candidates only; Unicode case folding is not part of this model.
- CandidateSink.StreamingEqualsBatch: candidates without a preserved order; those with one are modelled in the sink but have no batch counterpart.
- Candidate kinds, descriptions' clean-up and the context and recency weights that make up a score are inputs.
- PrefixScan.ScanDirectory: distinct ASCII names; entries whose metadata cannot be read count as plain files.
- ShellWords.ReanalysisFindsValue: positions count characters, not bytes; variables and tilde users, which are inserted unquoted, and trailing spaces are not part of it.
- The tokeniser `lex_shell`, and with it command position and word lists, is not part of this model; it skips two bytes after an escaped non-ASCII character, which the modelled scanner does not.
- Hash, signature, compression and JSON of a pack are opaque bytes of fixed length; the allocation bounds of opening are not part of this model.
- The builder's commands are their registrations and their compressed blocks, which the block encoder keeps within its size.
- PackIndex.WriteFields: writes the fields from a list, where the source has one statement for each.
- RuleLoad.LoadRules: packs come in the order of the loader's source preference; the semantic order of the merged programs is not part of this model.
- DynamicTargets.PropagateAssignments: what one function's body contributes is an input, and the targets that the result leads to are not part of this model; with calls through variables only the upper bound is claimed of a loop that ends changed.
- Fish wrapper services and the linking of support libraries are not part of this model.
- LoadFits.LoadIsAccepted: blocks without diagnostics; diagnostics that are staged take room from later blocks as `RuleLoad.OutcomeIsBounded` allows.
- Character widths are inputs of at most two columns; cursor movement and the repainted input line are not part of this model.
- EventTimeout.RunIsTransparent: other code never writes this plugin's own hook back; runs in which a foreign write is lost are described by `WriteIsKept` instead.
- The script parser, the rule machine, the probe supervisor and the syntax engine are not part of this model.
