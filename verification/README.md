# Verified model of youta's concurrent and order-sensitive parts

Youta is a media player and archive client. This project models the parts of it whose guarantees
span several functions or whole runs, and proves those guarantees for every input, every
interleaving and every schedule. It is a Dafny 4 project; `dafny verify dfyconfig.toml` verifies all
of it.

## What is modelled

**Original-byte playback cache** (`src/archive_playback_cache.rs`). Up to four client threads share a
ledger of blocks, elect at most two fetchers, write blocks into one sparse file under a disk lock and
read ranges of it back, while the owner may retire the cache at any moment.

- `PlaybackLedger` is the state behind the mutex, as a class with one method per critical section
  and a specification function beside each.
- `CacheProtocol` is the step system of all threads. Its atomic steps are those critical sections,
  the flag reads, the disk-lock operations, partial file writes, and every failure the environment
  can cause. `Charge` merges taking the reservation from the budget with storing it in the ledger;
  nothing reads the ledger's reservation in between.
- `CacheInvariant` proves that every step keeps the invariant; `CacheSafety` states what follows for
  whole runs; `CacheProgress` bounds the fetching of every run and shows that from every state in which
  nothing has failed the file can still be completed; `CacheDelivery` adds the socket writes of the
  clients; `CacheBudget` runs any number of caches, and starts that fail, against the global budget.
- `ByteRanges` and `CacheTransfer` are the text of ranges, the upstream fetch and the serving loop,
  and what a response assembled from many reads contains in any run.

The network assumption is the one of RFC 9110, section 15.3.7.3: a URL together with a strong ETag
fixes the bytes of a representation, and a 206 reply under that ETag carries bytes of it. Bodies may
still be cut short, extended or interrupted, and any reply may be malformed.

**Activity storage policy** (`src/activity_storage.rs`). `ActivityStorage` is the object behind the
reader/writer lock, and runs of policy changes against operations that hold a read lease and against
handles captured earlier. The generation is 64 bits wide and wraps.

**AcoustID ranking and limiter** (`src/audio_identification.rs`). `AcoustIdRanking` proves the
fold, sort and cut against a definition over the set of reported facts; `LookupLimiter` spaces lookups.

**Source counter** (`scripts/production_loc.py`). `ConfigPredicates` evaluates configuration
attributes over three values against their two-valued meaning; `SourceMask` blanks disabled syntax in
place; `SourceWorklist` follows module declarations.

**NPR snapshot generator** (`examples/update_npr_stations.rs`). `NprServices` deduplicates stations
into services; `ProbePool` is the worker pool, its channel and the merge into the quality cache.

**Artwork** (`src/artwork.rs`). `ThumbnailCache` is eviction under two budgets; `ArtworkFetch` is the
redirect-limited fetch with its tile fallback and the cache behind it.

**Helper output** (`src/archive_upload_media.rs`). `HelperOutput` cuts chunks into lines and
interprets them.

**Spectrum queue** (`src/ascii_visualizer.rs`). `SpectrumQueue` is the capacity-one replacement
protocol between the CAVA worker and the frontend.

Where a method is proved against a specification function, a lemma named after it with `Meaning` says
what that function is in plain terms: the fields of a reply, the text of a name, the first difference of
two strings, the records a refresh leaves.

`Basics`, `Text` and `Sorting` hold shared vocabulary: bytes, URLs as parsed records, string order,
decimal numbers, insertion into an ordered sequence.

## What the proofs found

- `single_range` and `content_range` parse numbers with `str::parse`, which takes a leading plus sign.
  The grammars that RFC 9110 allows for byte ranges (section 14.1.2, which admits only the int-range and
  suffix-range of section 14.1.1) and for Content-Range (section 14.4) have none. For every accepted
  value, being in the grammar and containing no plus sign are the same thing (`ByteRanges.AcceptedGrammar`,
  `ByteRanges.AcceptedContentGrammar`; `SignAccepted` and `ContentSignAccepted` give values). A number
  of 2^64 or more is refused although a last position that large selects the whole file
  (`ByteRanges.HugeLastRefused`);
  `ByteRanges.RangeMeaning` and `ContentRangeMeaning` say for every string whether it is accepted.
- A handle captured while saving was on is private after any policy change unless the number of
  changes since is a multiple of 2^64, when the wrapped generation matches again
  (`ActivityStorage.CapturedPersists`, `ActivityStorage.WrapRevivesHandle`).
- `with_path` holds no lock while it makes a session directory. When that fails it reports an error
  even if saving was enabled again in between (`ActivityStorage.Store.WithPath` has the exact outcome,
  `ActivityStorage.FailsWhileSaving` a scenario).
- `cfg_value` treats each occurrence of an unknown name by itself, so `any(unix, not(unix))` stays
  unknown although every platform satisfies it, and an item under `cfg(unix)` and `cfg(not(unix))` is
  kept although no platform has it. Per occurrence both answers are exact (`ValueExact`, `ItemExact`);
  for ordinary assignments they are exact whenever no unknown occurs twice (`ValueExactByName`,
  `ItemExactByName` in `ConfigPredicates`).
- Services, aliases and the preference of the selected candidate do not depend on response order. The
  selected candidate, apart from its homepage, is the same for every order exactly when all candidates
  that nothing is preferred to agree (`NprServices.SelectionOrderFree`). The homepage can depend on the
  order without any tie: a selected candidate with the generic page inherits from whichever comes
  first (`NprServices.HomepageFollowsOrder`). It is the same for every order exactly when only one
  specific page is offered for the service, or all candidates that may be selected have the same
  specific page of their own (`NprServices.HomepageOrderFree`).
- Helper output is independent of how reads cut it as long as the shared byte allowance holds. Beyond
  it reading always fails, but a progress line whose terminator is the last byte allowed is recorded
  only if a read ends there (`HelperOutput.CutsMatterBeyond`). Let the other stream add at most m bytes,
  at any times, while n bytes of allowance are left. Then all readings report the same exactly when
  every prefix at which the limit may be noticed, at most n bytes long and less than 4096 + m bytes
  short of n, leads to the same report, which must also be that of the whole stream if the limit may go
  unnoticed (`HelperOutput.CutsAgreeBeyond`).

## Model

| member | source | states |
|---|---|---|
| PlaybackLedger.SharedState.constructor | src/archive_playback_cache.rs:112-120 | a fresh cache has no identity, no blocks, no fetch and no reservation |
| PlaybackLedger.SharedState.Poll | src/archive_playback_cache.rs:401-432 | one locked pass serves, refuses, waits or elects as `CacheSafety.VerdictMeaning` says for every reachable ledger, and changes the ledger only when it elects, as `CacheSafety.ElectionMeaning` says |
| PlaybackLedger.SharedState.Attach | src/archive_playback_cache.rs:482-487 | the initializing thread stores its reservation and nothing else changes |
| PlaybackLedger.SharedState.Settle | src/archive_playback_cache.rs:434-458 | a fetch that succeeds in a live cache publishes its block (and, the first time, identity and block vector); any other outcome disables the cache for good |
| PlaybackLedger.SharedState.Completed | src/archive_playback_cache.rs:310-323 | a length is leased exactly when the cache is live, has blocks, and all are ready |
| CacheInvariant.StartInv | src/archive_playback_cache.rs:267-285 | a freshly started cache satisfies the invariant |
| CacheInvariant.StepInv | src/archive_playback_cache.rs:401-531 | every step of every client, of the listener, of the owner and of a lease holder keeps the invariant: ledger, jobs, counts, disk lock, file contents, phases and history |
| CacheSafety.Reached | src/archive_playback_cache.rs:401-531 | the invariant holds at every moment of every run of a fresh cache |
| CacheSafety.RunOnward | src/archive_playback_cache.rs:401-472 | over any stretch of a run the identity is set at most once, the block vector keeps its length, blocks only move from missing to fetching to ready, disabling and stopping are final, and a whole cache stays whole |
| CacheSafety.CompletedIsOriginal | src/archive_playback_cache.rs:310-323 | whenever `completed` would return a lease, the file equals the origin's representation byte for byte |
| CacheSafety.ServedIsOriginal | src/archive_playback_cache.rs:512-531 | every range ever read for a client equals that range of the one representation the cache identified |
| CacheSafety.CompletedStays | src/archive_playback_cache.rs:392-396 | once complete, a lease is current exactly until the owner stops; no later fetch can spoil it |
| CacheSafety.StaleForever | src/archive_playback_cache.rs:392-396 | `is_current` never becomes true again once false, nor does completion |
| CacheSafety.RetirementIsFinal | src/archive_playback_cache.rs:366-377 | after the owner's drop no step of any fetch or read in flight creates, writes or reads the payload, and the file never changes again |
| CacheSafety.FetchesBounded | src/archive_playback_cache.rs:420-431 | the fetch counter equals the threads in flight and is at most two, clients are at most four, and an elected thread always finds an agent in the pool |
| CacheSafety.ElectedOnce | src/archive_playback_cache.rs:412-431 | no two elections of a run are for the same block, so initialization is elected once and each block is fetched at most once |
| CacheSafety.WaitsForSomebody | src/archive_playback_cache.rs:462-469 | a client is told to wait only while some thread is running a fetch |
| CacheSafety.VerdictMeaning | src/archive_playback_cache.rs:401-469 | in every reachable state a client is refused exactly when the cache is disabled or the block lies outside the identified file, served exactly when the block is ready, told to wait exactly for the initialization, for its own block under way or because two fetches run, and elected in every other case |
| CacheSafety.ElectionMeaning | src/archive_playback_cache.rs:412-431 | an election marks exactly the elected block, or the initialization, and counts one fetch more |
| CacheSafety.PublicationMeaning | src/archive_playback_cache.rs:434-458 | a fetch that ends well in a live cache makes exactly its block ready and, the first time, identifies the file with all other blocks missing; any other end disables the cache and changes neither identity nor blocks |
| CacheSafety.ReservesOnce | src/archive_playback_cache.rs:482-487 | a reservation is taken only when the cache has none, for a length within the file limit |
| CacheProgress.CompletionReachable | src/archive_playback_cache.rs:401-509 | a fresh cache can complete every representation within the limits, whatever its number of blocks, and lease its file |
| CacheProgress.CompletionAlwaysPossible | src/archive_playback_cache.rs:401-531 | from every reachable state that is neither stopped nor disabled, with a listener or a client, and in which no fetch in flight has failed, some run completes the file |
| CacheProgress.NextMove | src/archive_playback_cache.rs:401-531 | in every such state that is not complete some thread has a step that brings completion strictly closer and spoils nothing; no such state is a deadlock |
| CacheProgress.FetchingBounded | src/archive_playback_cache.rs:401-509 | in every run the fetches of a cache take at most a fixed number of steps for each block of the file, ten and one per byte, whatever fails and whoever interferes |
| CacheDelivery.SentIsOriginal | src/archive_playback_cache.rs:1108-1129 | whatever is ever written to a socket as content is a stretch of the original |
| CacheDelivery.OneWriteAfterStop | src/archive_playback_cache.rs:1114-1129 | once the owner has stopped the cache each client makes at most one more write, and only if it had looked at the flag before |
| CacheBudget.Budget.Permit | src/archive_playback_cache.rs:238-244 | a permit is given exactly while fewer than four are out |
| CacheBudget.Budget.Reserve | src/archive_playback_cache.rs:64-75 | bytes are added exactly when the sum is at most 512 MiB |
| CacheBudget.Budget.Release | src/archive_playback_cache.rs:79-94 | dropping a cache gives back its permit and exactly its reservation |
| CacheBudget.EventBalanced | src/archive_playback_cache.rs:64-94 | each event of any cache, and each start that succeeds or gives its permit back, keeps bytes equal to the sum of live reservations and entries equal to live permits |
| CacheBudget.BudgetConserved | src/archive_playback_cache.rs:49-94 | over every sequence of events of any number of caches and starts both counters stay exact and within their limits, and bytes are zero when no cache is left |
| CacheBudget.ReleaseNeverUnderflows | src/archive_playback_cache.rs:79-94 | the unchecked subtractions of the drops never go below zero, those of a failed start included |
| ByteRanges.SingleRange | src/archive_playback_cache.rs:1063-1080 | an accepted range is nonempty and lies inside the file |
| ByteRanges.RangeMeaning | src/archive_playback_cache.rs:1063-1080 | every string is accepted exactly when its two sides are numerals within 64 bits that select some byte, and then the interval is exactly the selected bytes |
| ByteRanges.AcceptedGrammar | src/archive_playback_cache.rs:1063-1080 | every accepted string is a byte range as RFC 9110, section 14.1.2, allows it exactly when it contains no plus sign |
| ByteRanges.SignAccepted | src/archive_playback_cache.rs:1073-1078 | a concrete value outside the grammar is accepted |
| ByteRanges.HugeLastRefused | src/archive_playback_cache.rs:1073-1078 | every last position of 2^64 or more is refused although the range selects the whole file |
| ByteRanges.ContentRange | src/archive_playback_cache.rs:808-817 | an accepted Content-Range is ordered and lies inside its length |
| ByteRanges.ContentRangeMeaning | src/archive_playback_cache.rs:808-817 | every string is accepted exactly when it is three ordered numerals within 64 bits, and reads as their values |
| ByteRanges.AcceptedContentGrammar | src/archive_playback_cache.rs:808-817 | every accepted string is in the grammar of RFC 9110, section 14.4, exactly when it contains no plus sign |
| ByteRanges.ContentSignAccepted | src/archive_playback_cache.rs:808-817 | a concrete value outside the grammar is accepted |
| ByteRanges.ContentRangeReadsBack | src/archive_playback_cache.rs:808-817 | every ordered Content-Range within 64 bits, written as the serving side writes it, reads back, and every other one is refused |
| CacheTransfer.ReadBody | src/archive_playback_cache.rs:752-769 | for any cut of the body into reads, the result is the whole body exactly when it has the wanted length and no round that was begun fails; the rounds are those that bring at most 64 KiB each and the one that sees the end |
| CacheTransfer.DeliversBlock | src/archive_playback_cache.rs:695-751 | a reply that passes all header conditions carries the exact block of one representation, the expected one if any |
| CacheTransfer.AcceptableMeaning | src/archive_playback_cache.rs:695-742 | the header checks accept a reply exactly when its fields, one by one, are those of a correct answer: 206, no other encoding than identity in any case, a strong tag, the expected file if any, the numerals of exactly this block, and its length as content length |
| CacheTransfer.EndpointMeaning | src/archive_playback_cache.rs:783-806 | requests are allowed exactly to the exact RAM origin, or to archive.org and its subdomains over https on the default port, without user information, query or fragment and within 6400 bytes |
| CacheTransfer.TakeBlock | src/archive_playback_cache.rs:695-778 | a reply whose fields are those of a correct answer, with the whole body and no fault, is taken; whatever is taken had such a header and is that body, under the URL, tag, length and media type of the reply |
| CacheTransfer.FetchRange | src/archive_playback_cache.rs:634-781 | at most four requests, the first to the known URL or the origin, each to an allowed endpoint, in active time and along the previous redirect; the fetch goes on exactly while it may; a correct last reply gives exactly its block, and whatever is given came under a header correct in every field |
| CacheTransfer.Stream | src/archive_playback_cache.rs:1032-1057 | the chunks of the range are asked for in order up to the first fault; without one the body is exactly the range, with one exactly the chunks before it and what the socket still took were sent |
| CacheTransfer.ChunksCover | src/archive_playback_cache.rs:1033-1036 | the chunks of any range lie inside one block each, follow one another without a gap and cover it exactly |
| CacheTransfer.ChunksFillBlocks | src/archive_playback_cache.rs:1033-1036 | every chunk but the last goes on to the end of its block, so there is one way to cut a range |
| CacheTransfer.Answer | src/archive_playback_cache.rs:988-1057 | without a Range, or under another If-Range, a response that is sent is the whole file with its length; under a Range that counts it is exactly the selected bytes, and a refusal exactly when nothing is selected; a redirect, a broken connection or a response exactly as identification, first chunk and header decide; a failed body is a strict prefix |
| CacheTransfer.PlanMeaning | src/archive_playback_cache.rs:991-1008 | any value that asks for a range, under an absent or identical If-Range, yields exactly the selected bytes or 416; under any other If-Range the whole file |
| CacheTransfer.PlanRefuses | src/archive_playback_cache.rs:991-1008 | a value that asks for no range yields 416 when its If-Range holds |
| CacheTransfer.PlanPlain | src/archive_playback_cache.rs:991-1008 | both together: for every value of a Range that counts, refused exactly when no range it asks for is satisfiable, else exactly the selected bytes |
| CacheTransfer.ChunksAreReads | src/archive_playback_cache.rs:512-531 | each chunk of a satisfiable range is a read the interleaving model admits |
| CacheTransfer.ResponseIsOriginal | src/archive_playback_cache.rs:1032-1057 | in every interleaving the reads a client makes for the chunks of a range concatenate to that part of the original, all of it once every chunk was read |
| ActivityStorage.Store.constructor | src/activity_storage.rs:17-22 | a fresh store has no preference, generation zero and no session |
| ActivityStorage.Store.Initialize | src/activity_storage.rs:35-50 | only the first preference is kept |
| ActivityStorage.Store.PrepareSession | src/activity_storage.rs:210-220 | a session directory, once made, is kept; a failure changes nothing |
| ActivityStorage.Store.SetEnabled | src/activity_storage.rs:59-69 | the preference is set, the session kept or made and the generation advanced, wrapping at 2^64, exactly when the preference changes; a disable that cannot make a directory changes nothing |
| ActivityStorage.Store.ForOperation | src/activity_storage.rs:164-178 | capturing fixes the epoch and the privacy of the moment, once |
| ActivityStorage.Store.WithPath | src/activity_storage.rs:187-207 | whatever others change while the lock is not held, a path given is the one the policy gives at that moment; it fails exactly when a directory is needed and none can be made |
| ActivityStorage.FailsWhileSaving | src/activity_storage.rs:187-207 | a lookup that fails although saving was enabled meanwhile and the handle may persist |
| ActivityStorage.RunInv | src/activity_storage.rs:59-69 | in every run the generation is the number of changes modulo 2^64, and every lease agrees with the policy |
| ActivityStorage.LeasesFollowPolicy | src/activity_storage.rs:187-207 | a running operation has the path the policy would give it now; while saving is off it is private |
| ActivityStorage.DisabledMeansPrivate | src/activity_storage.rs:52-69 | when disabling returns no persistent operation is running, and none starts until saving is enabled again |
| ActivityStorage.CapturedPersists | src/activity_storage.rs:164-207 | a captured handle gets the persistent path exactly when saving was on then, is on now, and the changes in between are a multiple of 2^64 |
| ActivityStorage.PrivateEpoch | src/activity_storage.rs:158-207 | with fewer than 2^64 changes, a handle captured while saving was off or before any change, and every child of it, is never given the persistent path |
| ActivityStorage.EpochIsKept | src/activity_storage.rs:149-178 | capturing twice is capturing once, and joining commutes with capturing |
| ActivityStorage.WrapRevivesHandle | src/activity_storage.rs:64-67 | after exactly 2^64 flips an old handle is persistent again |
| ActivityStorage.SessionSuffices | src/activity_storage.rs:187-207 | once a session directory exists no lookup ever needs another |
| AcoustIdRanking.CanonicalForm | src/audio_identification.rs:1419-1433 | a canonical identifier is its own canonical form, and two spellings share one exactly when they differ in letter case only |
| AcoustIdRanking.UuidShapeMeaning | src/audio_identification.rs:1419-1433 | an identifier is five groups of 8, 4, 4, 4 and 12 hexadecimal digits joined by hyphens |
| AcoustIdRanking.RankCandidates | src/audio_identification.rs:1367-1408 | the output is the first 256, in rank order, of the best candidates of all recordings |
| AcoustIdRanking.RankingMeaning | src/audio_identification.rs:1367-1417 | in a ranking every entry is a link of the response, scores fall and recordings rise at equal scores, no link of a recording beats its entry by score or then by lesser result, and a recording is left out only behind 256 others |
| Text.LessMeaning | src/audio_identification.rs:1404-1405 | the order of identifiers is decided at their first difference |
| AcoustIdRanking.OnePerRecording | src/audio_identification.rs:1367-1397 | no recording appears twice in a ranking |
| AcoustIdRanking.RankingUnique | src/audio_identification.rs:1367-1408 | two responses that report the same facts have the same ranking |
| AcoustIdRanking.OrderIndependent | src/audio_identification.rs:1367-1417 | any permutation of results, and of recordings inside them, gives the same ranking |
| LookupLimiter.Limiter.WaitForSlot | src/audio_identification.rs:163-189 | a slot is granted at the last reading made of the limiter's own clock, which is recorded, after a look that found no cancellation, and at the first chance: only the reading just before it came an interval after the previous lookup; a wait that ends otherwise consumes none |
| LookupLimiter.Limiter.AwaitTurn | src/audio_identification.rs:167-184 | one reading and one look for each round; the loop ends at the first reading late enough, the first cancelled look, an interval beyond the largest instant, or the end of observation |
| LookupLimiter.SpacedFar | src/audio_identification.rs:70 | of the readings at which lookups started, those n apart in order are at least n intervals apart in time |
| LookupLimiter.ThreePerSecond | src/audio_identification.rs:66-70 | in every closed window of one second at most three lookups start, by the readings of the one clock |
| ConfigPredicates.DefiniteIsRight | scripts/production_loc.py:47-61 | a definite value is the two-valued meaning under every assignment of the unknowns |
| ConfigPredicates.ValueExact | scripts/production_loc.py:47-61 | a value is definite exactly when all assignments, per occurrence of an unknown, agree on it |
| ConfigPredicates.ValueExactByName | scripts/production_loc.py:47-61 | when no unknown occurs twice, a value is definite exactly when all ordinary assignments agree on it |
| ConfigPredicates.RepeatedNameStaysUnknown | scripts/production_loc.py:47-61 | `any(unix, not(unix))` stays unknown although it always holds |
| ConfigPredicates.NextGroup | scripts/production_loc.py:36-44 | a run without commas is one group and a comma starts the next; empty runs are none |
| ConfigPredicates.CommentSkipped | scripts/production_loc.py:36-44 | a comment anywhere changes no group |
| ConfigPredicates.TestNameMeaning | scripts/production_loc.py:66-68 | the test attributes are `test` and every path that ends in it |
| ConfigPredicates.DroppedIsAbsent | scripts/production_loc.py:64-76 | an attribute that drops its item does so under every assignment |
| ConfigPredicates.KeptIsPresent | scripts/production_loc.py:64-76 | an attribute that keeps its item leaves it present under an assignment per occurrence, which is given |
| ConfigPredicates.FailsExactly | scripts/production_loc.py:64-76 | on which attributes the script fails instead of deciding |
| ConfigPredicates.ItemExact | scripts/production_loc.py:145-151 | an item is dropped exactly when it is absent under every assignment per occurrence |
| ConfigPredicates.ItemExactByName | scripts/production_loc.py:145-151 | when no unknown occurs twice in all its attributes, an item is dropped exactly when it is absent under every ordinary assignment |
| ConfigPredicates.RepeatedNameKeepsItem | scripts/production_loc.py:145-151 | an item under `cfg(unix)` and `cfg(not(unix))` is kept although no ordinary assignment has it |
| SourceMask.Mask | scripts/production_loc.py:119-121 | one stretch is blanked from the source, newlines kept, nothing else touched |
| SourceMask.MaskAll | scripts/production_loc.py:116-121 | overlapping and nested stretches, in any order, blank exactly their union |
| SourceMask.LinesKept | scripts/production_loc.py:119-121 | every byte keeps its line number |
| SourceMask.MaskedLines | scripts/production_loc.py:119-121 | after masking, exactly the lines with a visible nonblank byte remain nonblank, under their old numbers |
| SourceMask.CountedLines | scripts/production_loc.py:94-121 | after disabled syntax and then documentation are blanked, exactly the lines with a byte in neither count, under their original numbers |
| SourceWorklist.RustSources | scripts/production_loc.py:185-205 | on any graph, cyclic or not, it ends; it succeeds exactly when every reachable file is owned, has no parent step, is no symbolic link and parses, and then has read exactly the reachable files, each once |
| SourceWorklist.ClosedIsReachable | scripts/production_loc.py:192-205 | when the queue is empty no reachable file has been missed |
| SourceWorklist.OwnedMeaning | scripts/production_loc.py:197-199 | on written paths: the five roots and what lies under `src/`, `gui/src/` and, for tests, `tests/` |
| SourceWorklist.IntegrationRootMeaning | scripts/production_loc.py:188-190 | on written paths: `tests/X.rs` and `tests/X/main.rs` for a nonempty name X |
| SourceWorklist.GeneratedMeaning | scripts/production_loc.py:195-196 | generated files are those whose name before its last extension ends in `_generated` |
| NprServices.CollectServices | examples/update_npr_stations.rs:1162-1249 | the services are one function of the candidates, with the properties of `ServicesCollected` |
| NprServices.ServicesCollected | examples/update_npr_stations.rs:1194-1249 | a service survives exactly when one of its accepted candidates names a specific homepage; it carries all aliases, the first candidate none precedes, and the homepage of the last one selected for a while that has a specific page, else of the first one offered |
| NprServices.SurvivorsMeaning | examples/update_npr_stations.rs:1194-1249 | a GUID with a visible character survives exactly when some stream of it with a choice has another homepage than the directory; its aliases are those of all its streams with a choice |
| NprServices.Gather | examples/update_npr_stations.rs:1194-1242 | whatever candidates the groups describe, afterwards they describe those and one more |
| NprServices.SameService | examples/update_npr_stations.rs:1231-1240 | replacing the selected candidate or keeping it both preserve what a group describes, with the homepage inherited either way |
| NprServices.HomepageExtends | examples/update_npr_stations.rs:1251-1258 | what one more candidate does to the inherited homepage in each branch |
| NprServices.PreferredOrder | examples/update_npr_stations.rs:1399-1406 | the comparison is a strict weak order |
| NprServices.PreferredMeaning | examples/update_npr_stations.rs:1399-1421 | in the candidates' fields: local before inherited, then a title that names its station, then primary, then FM before others before AM, then the lesser organization |
| NprServices.AffinityMeaning | examples/update_npr_stations.rs:1408-1411 | a title names a station when its call or brand name, not blank, occurs in it in any letter case |
| NprServices.OrderIndependent | examples/update_npr_stations.rs:1162-1249 | surviving GUIDs and alias sets are the same for every order of candidates, and neither selection is preferred to the other |
| NprServices.SelectionOrderFree | examples/update_npr_stations.rs:1399-1406 | the selected candidate apart from its homepage, its description and audio included, is the same for every order exactly when all candidates that nothing is preferred to agree |
| NprServices.HomepageOrderFree | examples/update_npr_stations.rs:1251-1258 | the homepage is the same for every order exactly when one specific page is offered, or all candidates that may be selected have the same one |
| NprServices.AnyHomepage | examples/update_npr_stations.rs:1251-1258 | a candidate that may be selected without a page of its own gets any specific page of the service under some order |
| NprServices.HomepageFollowsOrder | examples/update_npr_stations.rs:1234-1258 | three candidates without a tie whose order decides the homepage |
| NprServices.TieFollowsOrder | examples/update_npr_stations.rs:1234-1239 | any candidate that nothing is preferred to is the one selected when it comes first, with its own specific page if it has one |
| ProbePool.RunInv | examples/update_npr_stations.rs:679-698 | under every schedule each service is queued, being probed or delivered, and only one of these |
| ProbePool.DrainedDelivers | examples/update_npr_stations.rs:679-699 | a drained pool has delivered every service exactly once with its own outcome |
| ProbePool.RunBounded | examples/update_npr_stations.rs:682-697 | every schedule ends: each step lowers what is left to do by one |
| ProbePool.StuckIsDrained | examples/update_npr_stations.rs:682-699 | a schedule that cannot go on has drained the pool and delivered everything |
| ProbePool.Refresh | examples/update_npr_stations.rs:701-739 | for every arrival order the refreshed cache and the selections are one function of services, old cache and probes, with the properties of `RefreshedMeaning` |
| ProbePool.RefreshedMeaning | examples/update_npr_stations.rs:625-770 | a service whose first probeable alternative brings facts has exactly that record and selection, and its exclusion of that URL is lifted; otherwise the old record stays exactly when it has facts and the service's URL, and the selection stays; services that are gone leave both caches |
| ProbePool.RefreshedConsistent | examples/update_npr_stations.rs:526-537 | the refreshed cache never lists a service as playable and unplayable at the same URL, and every retained record is for the finally selected URL |
| ProbePool.ProbeIsFirst | examples/update_npr_stations.rs:742-758 | the selection is the first alternative, by position, that can be probed, and all before it failed |
| ThumbnailCache.Inspect | src/artwork.rs:512-547 | each directory entry is ignored, swept, budgeted or ends the pass, spelled out for every kind of name and metadata |
| ThumbnailCache.EntriesMeaning | src/artwork.rs:512-547 | the entries are exactly the unexpired files under an entry's name that are neither empty nor over 4 MiB |
| ThumbnailCache.Evict | src/artwork.rs:510-566 | the pass fails exactly when the directory cannot be listed, an entry cannot be read or a cache entry's metadata cannot, having swept what came before; otherwise it removes the swept names and a prefix by rising modification time, ending at the first point that meets both budgets, whichever removals fail |
| ThumbnailCache.Trim | src/artwork.rs:554-564 | counting down only on success keeps both counters equal to what remains |
| ThumbnailCache.LeftNext | src/artwork.rs:560-563 | one removal attempt takes exactly that entry out of what remains, or nothing when it fails |
| ThumbnailCache.LeftMeaning | src/artwork.rs:554-564 | after some attempts, what remains are the later entries and those whose removal fails |
| ThumbnailCache.LongestSuffix | src/artwork.rs:549-564 | when removals succeed, what remains is the longest suffix in age order that meets both budgets |
| ThumbnailCache.Untouchable | src/artwork.rs:514-527 | a temporary in use and a name the cache does not own are never removed |
| ThumbnailCache.TempNames | src/artwork.rs:483-489 | every temporary the cache creates is recognized as one, and different counters give different names |
| ThumbnailCache.EntryNameMeaning | src/artwork.rs:607-618 | an entry's name is 64 lower-case hexadecimal digits and `.image` |
| ThumbnailCache.TempNameMeaning | src/artwork.rs:620-639 | a temporary's name is `.thumbnail.`, two numbers with a dot between them, and `.tmp` |
| ThumbnailCache.NamesDisjoint | src/artwork.rs:607-639 | no name is both an entry and a temporary |
| ArtworkFetch.ChainConfined | src/artwork.rs:811-838 | a chain that starts at Archive stays there, and a pod's chain stays on its origin or Archive |
| ArtworkFetch.ArchiveMeaning | src/artwork.rs:959-969 | an Archive URL is https on archive.org or a subdomain, default port, a path alone, at most 4 KiB |
| ArtworkFetch.SniffMeaning | src/artwork.rs:1017-1027 | a format is decided by the first bytes: the PNG signature, the JPEG marker, or RIFF and WEBP around a size |
| ArtworkFetch.FetchRemote | src/artwork.rs:734-807 | requests follow redirects approved hop by hop and counted exactly against the shared allowance, go on exactly while allowed and in time, succeed exactly when a small enough body arrives in time, and report an unsafe redirect, a body too large and any other failure apart |
| ArtworkFetch.FetchWithFallback | src/artwork.rs:693-730 | both fetches together issue at most five requests; the tile is fetched exactly when the primary brought no image and was not unsafe, and its bytes are marked as fallback |
| ArtworkFetch.ArtworkCache.RemoteArtwork | src/artwork.rs:1070-1100 | cached images are returned without a request; otherwise it succeeds exactly when the primary or, where permitted, the tile brings an image; only bytes from the URL's own chain are ever stored under it |
| HelperOutput.OutputState.ConsumeLine | src/archive_upload_media.rs:665-701 | one line sets the progress it reports or the file it names, or is refused, as no UTF-8 or a second file, and changes nothing |
| HelperOutput.ReportMeaning | src/archive_upload_media.rs:671-679 | a `total_size=` line with a number within 64 bits reports that size; every other line is left to the download framing |
| HelperOutput.OutputState.TakeChunk | src/archive_upload_media.rs:649-661 | a chunk is taken byte by byte into the open line |
| HelperOutput.OutputState.ReadOutput | src/archive_upload_media.rs:621-663 | the reading loop computes the outcome of the whole reading |
| HelperOutput.OutputState.ReaderThread | src/archive_upload_media.rs:601-618 | a reader keeps the first error of either stream, also when the other one ends while it is reading, and counts itself done |
| HelperOutput.SplitJoin | src/archive_upload_media.rs:649-661 | lines free of terminators, each closed by LF or CR, are exactly what splitting gives back |
| HelperOutput.JoinSplit | src/archive_upload_media.rs:649-661 | every stream is such lines and a tail, so splitting loses and adds nothing |
| HelperOutput.FeedIsByLine | src/archive_upload_media.rs:649-661 | the byte loop takes exactly the lines of the stream in order, up to the first that fails or is too long |
| HelperOutput.DrainWithin | src/archive_upload_media.rs:621-663 | within the byte allowance the outcome depends on the bytes alone |
| HelperOutput.DrainBeyond | src/archive_upload_media.rs:621-663 | beyond the allowance reading fails with what the bytes taken in lead to, at the place the counter determines |
| HelperOutput.FitsBounds | src/archive_upload_media.rs:634-642 | that place is within the allowance, and one read of at most 4096 bytes goes beyond it |
| HelperOutput.DrainIsWhole | src/archive_upload_media.rs:621-663 | reading succeeds exactly when the allowance holds and every line of the whole stream does |
| HelperOutput.WholeMeaning | src/archive_upload_media.rs:643-701 | reading the progress stream succeeds exactly when all lines fit, are UTF-8 and name one file at most; the record then holds the last progress and that file |
| HelperOutput.FaultMeaning | src/archive_upload_media.rs:649-701 | reading stops at the first line that is too long, no UTF-8 or a second file, with that fault and the record of the lines before |
| HelperOutput.SilentMeaning | src/archive_upload_media.rs:649-661 | the other stream reports nothing and fails only on a line that is too long |
| HelperOutput.WholeFails | src/archive_upload_media.rs:621-663 | a failed read is reported unless a line before it was at fault |
| HelperOutput.CutsDoNotMatter | src/archive_upload_media.rs:621-663 | two ways of cutting the same bytes, both within the allowance, give the same outcome |
| HelperOutput.CutsMatterBeyond | src/archive_upload_media.rs:634-682 | a progress line of FFmpeg whose terminator is the last byte allowed is recorded or not, depending on where the reads cut |
| HelperOutput.CutsAgreeBeyond | src/archive_upload_media.rs:621-663 | for any bound on what the other stream adds, all readings of the same bytes report the same exactly when every prefix at which the limit may be noticed leads to the same report |
| SpectrumQueue.StepInv | src/ascii_visualizer.rs:255-321 | every step of worker and frontend, in any interleaving, keeps the invariant |
| SpectrumQueue.RetryFindsRoom | src/ascii_visualizer.rs:287-299 | the second attempt to send always finds room |
| SpectrumQueue.NothingLost | src/ascii_visualizer.rs:287-299 | every event is held, received or displaced by a newer one, and the final Stopped is never displaced |
| SpectrumQueue.ReceivedInOrder | src/ascii_visualizer.rs:302-321 | the frontend receives and shows an in-order subsequence of what was produced |
| SpectrumQueue.NewestKept | src/ascii_visualizer.rs:287-299 | between sends the newest event is queued or was received last |
| SpectrumQueue.DrainIsFresh | src/ascii_visualizer.rs:302-321 | a drain that ends between sends returns the newest frame, or nothing when it was already shown |
| SpectrumQueue.StopIsGenuine | src/ascii_visualizer.rs:302-321 | a drain reports the end only after the worker ended or announced it, and it announces it unless asked to stop |
| SpectrumQueue.EndIsReported | src/ascii_visualizer.rs:302-321 | once the worker has ended a drain reports it after at most one leftover event |
| SpectrumQueue.EndIsPermanent | src/ascii_visualizer.rs:303-305 | every later drain reports it at once |
| SpectrumQueue.Channel.SendLatest | src/ascii_visualizer.rs:287-299 | the event is always queued, and a stale one goes to exactly one side, wherever the frontend intervenes |
| SpectrumQueue.SpectrumStream.DrainLatest | src/ascii_visualizer.rs:302-321 | the last frame before the queue is empty is returned, an end overrides it, and the end is remembered |

## Left out

- CacheProgress.CompletionAlwaysPossible: says that a completing run exists, not that every fair run completes; upstream failures may disable a cache at any time.
- CacheTransfer.Answer: takes method, route, host and duplicate-header handling as done, and models reads as giving the cache's bytes; `CacheTransfer.ResponseIsOriginal` is what justifies that.
- CacheTransfer.ReadBody: the stop flag and the deadline, looked at before each read, are among the rounds that may fail.
- ConfigPredicates.ItemExactByName: when an unknown does occur twice, deciding ordinary presence would be a tautology test; only the direction of `DroppedIsAbsent` then holds.
- CacheTransfer.Stream: writing to the socket is a number of bytes sent, see `CacheDelivery` for the write loop; the client lifetime is a fault that may happen at any chunk.
- SourceMask.CountedLines: which stretches are comments and documentation strings is a parameter.
- LookupLimiter.Limiter.WaitForSlot: sleeping is not modelled, only the readings of the clock; `rounds` is how many rounds of the loop are observed, and a wait that goes on beyond them is reported as still waiting.
- SourceWorklist.RustSources: the syntax-tree walk that finds masked stretches and module declarations is the parameter `scan`, and its result is assumed to name tracked files only, as the walk ensures.
- NprServices.CollectServices: candidates are the streams after station text, homepage and audio choices were extracted; trimming is modelled on ASCII white space.
- ProbePool.Refresh: alternatives are taken as `audio_choices` leaves them, sorted by rank and URL and without equal neighbours; one URL may stay under two ranks. Sorting and dropping neighbours a second time is not modelled.
- ArtworkFetch.FetchRemote: recognizing a pod's attachment route and its media paths is a parameter, and so is the tile derived from a waveform URL.
- ArtworkFetch.ArtworkCache.RemoteArtwork: the cache is a map from URLs; the SHA-256 file name, expiry on read and eviction between calls are not part of it.
- ThumbnailCache.Evict: one pass over a directory listing; names that appear or vanish during the pass show up as metadata outcomes or failed removals.
- HelperOutput.OutputState.ReadOutput: UTF-8 decoding and the framing of download events are parameters.
- AcoustIdRanking.RankCandidates: JSON decoding, response size and status come before it; scores are positions in the total order of floats.
- ActivityStorage.Store.WithPath: poisoned locks, absolute child paths in `join`, and removal of the session directory with its last owner are not modelled.
- The route and filename rules of `canonical_source` and `decode_segment`, the request-header reader and the listener's polling.
- HTTP agents, TLS, DNS pinning, cookies and timeouts: their outcomes are steps the environment may take.
- Lock poisoning, memory ordering below atomic steps, and thread creation failures other than as a client that leaves.
- The RAM upstream of the `cache` feature beyond its endpoint rule.
- `drain_bounded`, `check_staging`, process supervision and staging commands: bounded loops or system calls whose properties are local.
- `test_counts`, `total_counts`, Pygments and badge output of the source counter.
- Rendering of the NPR module, quality-cache text, playlists, `normalize_nominal_bitrate`, and validation of cache files other than the cross-map rule.
- Band interpolation, peaks and glyphs of the spectrum: floating-point display work.
- `src/archive_upload.rs`, `build.rs`, and the front-ends.
