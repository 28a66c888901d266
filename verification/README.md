# Adaptive cache: verified model

This project models the cache engine of the adaptive-caching repository and proves what it promises.
The engine is a byte-bounded store driven by an exchangeable eviction policy. The parts are:

* **Store** (`cache/store.go`): a map of resident objects with byte and key-byte counters, in the
  int64 arithmetic of the program.
* **Policies** (`cache/policy/`): LRU (a recency list), LFU with ageing (one list of keys per
  frequency), and second-chance Clock (a ring of slots with reference bits and a hand).
* **Core** (`cache/core.go`): Get, Put with its eviction loop, Remove, Clear, and SetPolicy, which
  replaces the policy while the cache is in use.
* **Latency histogram and counters** (`metrics/latency.go`, `metrics/collector.go`).
* **Event bus** (`events/bus.go`): publish and subscribe over bounded channels that drop when full.

Objects that the program updates in place are classes here, with the same fields and the same steps;
every method is proved to take the object from one abstract state to the next (`View`). The laws are
lemmas about these abstract states and about whole runs of calls. The parts that are lock-free, or that
hold a lock over several steps, are also modelled as protocols: any number of goroutines, interleaved at
the granularity of single atomic operations or channel operations.

| file | contents |
|---|---|
| `Base.dfy` | keys, 64-bit wrap-around, lists without duplicates, map order, weighted counts, sums over maps |
| `Store.dfy` | the store, its exact accounting, and for which capacities it is exact |
| `Lru.dfy` | `container/list` as the policies use it, and LRU |
| `Lfu.dfy`, `LfuLaws.dfy`, `LfuPolicy.dfy` | LFU on values, its laws, the policy object over list elements |
| `LfuRuns.dfy`, `LfuRanks.dfy`, `LfuTies.dfy` | how high frequencies climb over runs, what ageing does to ranks, the tie-break |
| `Clock.dfy`, `ClockLaws.dfy`, `ClockRuns.dfy`, `ClockOrder.dfy`, `ClockPolicy.dfy` | the ring, the victim walk and the place of new keys, runs and batches, what each hook does to the eviction order, the policy object |
| `Policies.dfy` | one contract per hook that all policies meet |
| `Collector.dfy` | the counters, and the snapshot protocol |
| `CacheState.dfy`, `CacheLaws.dfy`, `CacheRuns.dfy` | the cache on values, Put and coherence, laws of whole runs |
| `EvictionOrder.dfy` | which objects outlive which, after a hit, a Put or a switch |
| `EmptyKey.dfy` | what the empty key does to a Clock and to its cache |
| `LruInclusion.dfy` | a larger LRU cache never does worse |
| `Core.dfy` | the cache object over a store object and a policy object |
| `Latency.dfy`, `Histogram.dfy`, `Recording.dfy` | bucket arithmetic, quantiles, the recording protocol |
| `BusProtocol.dfy`, `BusSubscriptions.dfy`, `Bus.dfy` | the bus protocol, what it gives a subscriber, the bus object |

## Reading the model

* A Go `range` over a map has an unpredictable order. Calls that depend on one carry the order as an
  argument (`visit` for the buckets of an LFU ageing pass, `listing` for the entries a rebuild sees), and
  the laws hold for every such order. The methods return the order they happened to use as a ghost result.
* `Sound` is the coherence invariant of the cache: the policy tracks exactly the keys the store holds,
  the policy's own structure is intact, and the byte and key-byte counters are exact sums within capacity.
* `Possible` says which calls the program can make: sizes are int64 values, map orders are orders of the maps
  at hand, and the call returns. `Acceptable` adds that Clock is never given the empty string, which it uses to
  mark a free slot; only laws about coherence need it.
* `Fits`, `Evicted` and `ShortestRun` define what Put has to do without mentioning its loop; `Turn` is the
  ring as the hand sees it; `Landing` is where an ageing pass takes a frequency.

## Where the code does less than it says

Each of these is a statement with the exact condition under which the code does meet it:

* Byte accounting is exact over every run of store calls exactly for capacities in [0, 2^62)
  (`AccountsExactIffSafeCapacity`); from there on `s.bytes + size` can wrap (`cache/store.go:84`).
* An LFU ageing pass halves every frequency exactly once, whatever the map order, exactly when before the pass
  no bucket above 1 is the one that another bucket is halved into (`AgeingExactUnderEveryOrderIff`; for a given
  order, `AgeingExactIff`). The comment at `cache/policy/lfu.go:305` says "in half".
* A pass keeps the ranks of all keys, whatever the map order, exactly when before it no bucket h lies above a
  bucket f that h does not come to by halving, while h can land below half of f
  (`RanksKeptUnderEveryOrderIff`). For buckets 2, 4 and 5 the order 5, 2, 4 takes a key of frequency 5 below one
  of frequency 4 (`AgeingCanInvertRanks`).
* The tail of an LFU bucket is the key pushed onto it the longest ago, over every run
  (`VictimIsOldestOfLowest`, `InstalledVictimIsOldest`), as the comment at `cache/policy/lfu.go:240-242` has it
  for the current bucket. An ageing pass pushes every key it moves again, front first, so it reverses a bucket
  with each move: two keys of one frequency keep the order of their earlier pushes, whatever the map order,
  exactly when that frequency is 1 (`TiesKeptUnderEveryOrderIff`; for a given order, `PassKeepsTiesIff`).
* `Candidates` repeats keys beyond a certain size. It equals repeated single evictions exactly for sizes up
  to the lowest bucket (LFU), and for Clock up to the number of cold keys plus the hot keys the hand meets
  before the first cold one, or for every size when no key is cold (two lemmas `CandidatesAreVictimRoundsIff`,
  against the comments at `cache/policy/lfu.go:280-281` and `cache/policy/clock.go:209-213`).
* A replacement increments an LFU frequency without advancing the ageing counter, so each one raises the bound
  on frequencies by one (`ReinsertionsRaiseBound`). From a new LFU of period K, a frequency of 2K is within
  reach of a run with r replacements exactly when 2K is at most 2^16 and r is at least 2, or at least 1 when K
  is 1 (`TwicePeriodReachedIff`). The comment at `cache/policy/lfu.go:195-199` says that this matches LRU, where
  a second insertion does nothing.
* An LFU that does not age holds min(access count, 2^16) exactly until a 32-bit access count wraps
  (`HitFollowsCountIff`).
* LRU inclusion holds for all traces of objects with sizes from a given set exactly when no size of the set
  lies above the smaller and within the larger capacity, or none fits the smaller cache (`InclusionIff`).
* Clock marks a free slot with the empty string. A Put keeps store and policy coherent exactly when it does not
  store that key under Clock (`PutIsSound`, `ClockSoundIffKeyNonEmpty`), and likewise a switch to Clock
  (`SwitchRestoresCoherence`). The bytes of that object are then lost to others: the next Put of another key
  succeeds exactly when it fits beside it (`EmptyKeyKeepsItsBytes`). And where that key is in use, the probe for a
  free slot can go round for ever, against the comment at `cache/policy/clock.go:112`; otherwise it never does
  (`InsertionsReturnIff`, `CoherentPutReturns`).
* A new cache is coherent exactly when the policy it is given tracks nothing (`NewCacheSoundIff`), because `New`
  does not rebuild it (`cache/core.go:56-76`).
* The reported mean is exact until the running sum reaches 2^64 nanoseconds (`MeanExactIff`).

The model follows the code in two more places where comments differ: growing the Clock ring puts the hand
on the first new slot, not to 0 (`cache/policy/clock.go:138-152`), and the Clock victim walk skips empty
slots but frees nothing (`cache/policy/clock.go:19-24`, `:180-196`). The quantile error proved is 1/32,
half of the 6.25% that `metrics/latency.go:20-24` states.

## Model

| member | source | states |
|---|---|---|
| `Stores.InsertKeepsAccounts` | `cache/store.go:72-114` | An insertion keeps bytes and key bytes exact; it is refused exactly for a negative size, a size above capacity, or a true (unwrapped) total above capacity, and otherwise the bytes change by new minus old size |
| `Stores.RemoveKeepsAccounts` | `cache/store.go:117-128` | Removal keeps the accounts exact and frees exactly the entry's size |
| `Stores.TouchKeepsAccounts` | `cache/store.go:47-57` | A touch changes no account |
| `Stores.EntryWithinBytes` | `cache/store.go:84-88` | No single entry is larger than the byte count, so subtracting a replaced size cannot go below zero |
| `Stores.RunKeepsAccounts` | `cache/store.go:72-186` | Accounts are exact after every run of insertions, touches, removals and clears, for capacities below 2^62 |
| `Stores.HugeCapacityBreaksAccounts` | `cache/store.go:84` | From 2^62 on, two objects as large as the cache are both admitted and the byte count turns negative |
| `Stores.AccountsExactIffSafeCapacity` | `cache/store.go:72-114` | Accounting is exact over every run if and only if the capacity lies in [0, 2^62) |
| `Stores.Store.constructor` | `cache/store.go:31-36` | A new store is empty with zero counters and the given capacity |
| `Stores.Store.Touch` | `cache/store.go:47-57` | Increments the entry's access count in place and returns that entry; a missing key changes nothing |
| `Stores.Store.Insert` | `cache/store.go:72-114` | The object's new state and error are those of the insertion on values; a refused insertion changes nothing |
| `Stores.Store.Replace` | `cache/store.go:92-102` | Replacing updates value, size and access count of the existing entry object, and no other entry |
| `Stores.Store.Admit` | `cache/store.go:103-113` | A missing key gets a fresh entry of access count 1, and bytes and key bytes grow by its size and key length |
| `Stores.Store.Remove` | `cache/store.go:117-128` | Returns the removed entry and takes its size and key length off the counters |
| `Stores.Store.Entries` | `cache/store.go:169-177` | Lists every resident entry exactly once, in some map order |
| `Stores.Store.Clear` | `cache/store.go:180-186` | Empties the map and zeroes the counters |
| `ContainerList.KeysOfWithout` | `cache/policy/lru.go:93-102` | Unlinking an element by pointer removes exactly its key from the listed keys |
| `Lru.LRU.UnlinkIndexed` | `cache/policy/lru.go:62-68` | Following the index to an element and unlinking it takes out exactly that key and keeps index and list in step |
| `Lru.HooksKeepDistinctKeys` | `cache/policy/lru.go:62-102` | Access keeps the key set, insertion adds the key, removal drops it, and no key is ever listed twice |
| `Lru.AccessMakesMostRecent` | `cache/policy/lru.go:62-68` | A hit makes the key the most recent one, keeps the order of the others, and leaves it the next victim only if it is alone |
| `Lru.InsertKeepsPlaces` | `cache/policy/lru.go:74-87` | A re-insertion leaves the order, and so the next victim, as it was; a new key becomes the most recent |
| `Lru.RebuiltEvictsInListingOrder` | `cache/policy/lru.go:164-177` | A rebuilt LRU evicts its keys in the order in which they were listed |
| `Lru.CandidatesAreVictimRounds` | `cache/policy/lru.go:119-133` | For every n, Candidates(n) equals n rounds of taking the victim and removing it |
| `Lru.LRU.OnAccess` | `cache/policy/lru.go:62-68` | Moves a tracked key to the front of the recency order; a no-op for others |
| `Lru.LRU.OnInsert` | `cache/policy/lru.go:74-87` | Puts a new key in front; a tracked key keeps its place |
| `Lru.LRU.PushFront` | `cache/policy/lru.go:83-86` | A fresh element goes to the head, indexed and counted at 64 bytes |
| `Lru.LRU.OnRemove` | `cache/policy/lru.go:93-102` | Removes the key and keeps the order of the rest |
| `Lru.LRU.Victim` | `cache/policy/lru.go:106-114` | Names the least recently used key, and fails exactly when none is tracked |
| `Lru.LRU.Candidates` | `cache/policy/lru.go:119-133` | The last n keys of the recency order, least recent first |
| `Lru.LRU.Rebuild` | `cache/policy/lru.go:164-177` | Adopts the entries, the last one listed becoming the most recent |
| `Lru.LRU.MetadataBytes` | `cache/policy/lru.go:183-192` | 64 bytes per tracked key |
| `Lru.LRU.Reset` | `cache/policy/lru.go:195-202` | Forgets all keys |
| `LfuStates.IncrementKeepsBuckets` | `cache/policy/lfu.go:167-193` | Moving a key up one frequency, capped at 2^16, keeps every key in exactly one bucket that matches its frequency |
| `LfuStates.PushKeepsBuckets` | `cache/policy/lfu.go:209-217` | Pushing an untracked key onto a bucket keeps the bucket invariant |
| `LfuStates.DropKeepsBuckets` | `cache/policy/lfu.go:228-235` | Dropping a key, and its bucket when that empties it, keeps the bucket invariant |
| `LfuStates.MergedBucket` | `cache/policy/lfu.go:331-344` | Moving one bucket in front of another lists the keys of both, each once |
| `LfuStates.AgeBucketKeepsBuckets` | `cache/policy/lfu.go:316-346` | Halving one bucket keeps the invariant and changes the frequencies of its keys and of no others |
| `LfuLaws.AgeingMovesWholeBuckets` | `cache/policy/lfu.go:309-347` | Under every visit order the pass loses or duplicates no key, restores the invariant, and takes all keys of one frequency to the same place |
| `LfuLaws.NextBucketToAge` | `cache/policy/lfu.go:312-326` | When the pass comes to a bucket of its snapshot, that bucket is still there and lists exactly the keys of its frequency |
| `LfuLaws.LandingIsAShift` | `cache/policy/lfu.go:316-320` | A frequency lands on max(1, f >> j), with j at least 1 when its bucket is visited |
| `LfuLaws.AgeingHalvesAtLeastOnce` | `cache/policy/lfu.go:309-347` | Every key ends at max(1, f >> j) for some j of at least 1, so at most at max(1, f/2) |
| `LfuLaws.LandingExact` | `cache/policy/lfu.go:312-320` | A frequency is halved exactly once if and only if the bucket it merges into is not visited later |
| `LfuLaws.AgeingExactIff` | `cache/policy/lfu.go:309-347` | For a given visit order, all keys end at exactly max(1, f/2) if and only if no bucket is visited after one that merges into it |
| `LfuLaws.AgeingExactUnderEveryOrderIff` | `cache/policy/lfu.go:309-347` | A pass halves every frequency exactly once under every map order if and only if, before the pass, no bucket above 1 is the one that another bucket is halved into |
| `LfuLaws.AscendingAgeingIsExact` | `cache/policy/lfu.go:309-347` | Visiting the buckets in ascending order halves every frequency exactly once and preserves the ranks |
| `LfuLaws.AgeingCanInvertRanks` | `cache/policy/lfu.go:312-316` | Under the order 5, 2, 4 a key of higher frequency ends below one of lower frequency |
| `LfuRanks.RanksKeptUnderEveryOrderIff` | `cache/policy/lfu.go:309-347` | Every map order keeps the ranks of all keys if and only if, before the pass, no bucket h lies above a bucket f that it does not come to by halving while its deepest landing is below half of f |
| `LfuRanks.LandsNoDeeper` | `cache/policy/lfu.go:312-345` | No order takes a frequency below its deepest landing: halved, and again as long as it lands on a bucket |
| `LfuRanks.PathKeepsOrder` | `cache/policy/lfu.go:312-345` | Two frequencies on one path of halvings never overtake each other, under any order |
| `LfuRanks.PassingOrder` | `cache/policy/lfu.go:312-316` | When the condition fails, the order that goes down from h first and visits f last takes h below f |
| `LfuLaws.AgeingReversesTies` | `cache/policy/lfu.go:334-344` | Moving the lowest bucket front to front reverses it: before the move its oldest key is the victim, after it its newest |
| `LfuLaws.PopOne` | `cache/policy/lfu.go:334-344` | One pop and push moves the next key of the bucket, and its frequency, to the bucket of half the frequency |
| `LfuLaws.PopAll` | `cache/policy/lfu.go:334-345` | Once all elements are moved the source bucket is empty, and deleting it gives the bucket pass on values |
| `LfuLaws.VictimIsLeastFrequent` | `cache/policy/lfu.go:243-278` | The victim is tracked and no tracked key has a lower frequency; there is none exactly when nothing is tracked |
| `LfuLaws.LowestBucketServes` | `cache/policy/lfu.go:246-254` | While a key is tracked the lowest bucket exists and is not empty, and no bucket is numbered 0 |
| `LfuLaws.EvictLowestTail` | `cache/policy/lfu.go:243-256` | Evicting takes the tail of the lowest bucket, which stays lowest until it is empty |
| `LfuLaws.RoundsEmptyLowestBucket` | `cache/policy/lfu.go:243-256` | Repeated evictions empty the lowest bucket from its tail |
| `LfuLaws.RoundsNeverRepeat` | `cache/policy/lfu.go:221-256` | Repeated evictions never name a key twice |
| `LfuLaws.CandidatesAreVictimRoundsIff` | `cache/policy/lfu.go:282-300` | Candidates(n) equals n single evictions, and has no repeated key, if and only if n is at most the size of the lowest bucket |
| `LfuLaws.AccessKeepsInv` | `cache/policy/lfu.go:147-162` | A hit, with or without an ageing pass, keeps buckets, key set and period |
| `LfuLaws.InsertKeepsInv` | `cache/policy/lfu.go:200-218` | An insertion keeps the invariant and adds the key |
| `LfuLaws.RemoveKeepsInv` | `cache/policy/lfu.go:221-238` | A removal keeps the invariant and drops the key |
| `LfuLaws.HitCountsOnce` | `cache/policy/lfu.go:147-162` | A hit raises the frequency of its key by one, up to 2^16, and of no other; the one that completes the period is followed by a pass and restarts the counter |
| `LfuLaws.InsertAndRemoveCount` | `cache/policy/lfu.go:200-238` | An insertion sets a new key to 1 and raises a tracked one by one, a removal forgets one key; neither touches other frequencies or the counter |
| `LfuLaws.RebuildAdopts` | `cache/policy/lfu.go:353-380` | A rebuild gives every entry its clamped access count as frequency, keeps the period and restarts the counter |
| `LfuLaws.InitialFreqsLookup` | `cache/policy/lfu.go:361-376` | Every listed entry, and no other key, has frequency max(1, min(access count, 2^16)) |
| `LfuRuns.HitKeepsBound` | `cache/policy/lfu.go:147-162` | A hit, with or without an ageing pass under any order, keeps every frequency within period plus counter plus a given slack |
| `LfuRuns.ReinsertionsRaiseBound` | `cache/policy/lfu.go:147-238` | Over every run of hits, insertions and removals, under every map order, the bound of period plus counter rises by one with each re-insertion of a tracked key and by nothing else |
| `LfuRuns.FrequenciesStayBelowTwicePeriod` | `cache/policy/lfu.go:147-162` | With ageing period K, over every run without re-insertions and every visit order, all frequencies stay below 2K, so the cap of 2^16 is out of reach when 2K is at most 2^16 |
| `LfuRuns.HighestRun` | `cache/policy/lfu.go:145-208` | From a new LFU some run with r re-insertions takes a key to min(max(1, 2K - 2) + r, 2^16) |
| `LfuRuns.TwicePeriodReachedIff` | `cache/policy/lfu.go:145-208` | From a new LFU of period K, a run with r re-insertions can take a frequency to 2K if and only if 2K is at most 2^16 and r is at least 2, or at least 1 when K is 1 |
| `LfuRuns.ReinsertionEscapesAgeing` | `cache/policy/lfu.go:203-207` | n re-insertions take a key to frequency min(n + 1, 2^16) without any ageing, whatever the period |
| `LfuTies.BucketKeepsOrder` | `cache/policy/lfu.go:331-345` | Moving a bucket, each move counted as a push, leaves every bucket sorted from its latest push to its earliest |
| `LfuTies.PassKeepsOrder` | `cache/policy/lfu.go:309-347` | A whole ageing pass, under every order, keeps every bucket sorted by push time |
| `LfuTies.HookKeepsOrder` | `cache/policy/lfu.go:147-238` | A hit with or without ageing, an insertion and a removal keep every bucket sorted by push time |
| `LfuTies.VictimIsOldestOfLowest` | `cache/policy/lfu.go:240-256` | Over every run and every map order, the victim is, among the keys of the lowest frequency, the one pushed onto its bucket the longest ago |
| `LfuTies.PassKeepsTiesIff` | `cache/policy/lfu.go:309-347` | For a given order, two keys of one frequency leave a pass in the order of their earlier pushes if and only if the pass moves them an even number of times |
| `LfuTies.TiesKeptUnderEveryOrderIff` | `cache/policy/lfu.go:309-347` | Every map order leaves two keys of one frequency in the order of their earlier pushes if and only if that frequency is 1 |
| `LfuTies.RebuildIsOrdered` | `cache/policy/lfu.go:353-380` | An LFU rebuilt from resident entries has every bucket sorted by push time, in listing order |
| `LfuTies.InstalledVictimIsOldest` | `cache/core.go:215-228` | Over every run from an LFU that a policy switch installs, the victim is the key of the lowest frequency pushed the longest ago |
| `Lfu.PointersAreLive` | `cache/policy/lfu.go:59-63` | Every element pointer of the index is in the list of its bucket, carries its key, and is the only element there that does |
| `Lfu.PeriodFitsOne` | `cache/policy/lfu.go:131-143` | For a decay v in (0, 1] the period K has K*v <= 1 < (K + 1)*v; it is 0 exactly for no decay |
| `Lfu.LFU.constructor` | `cache/policy/lfu.go:65-73` | A new LFU ages every 20 accesses |
| `Lfu.LFU.SetParam` | `cache/policy/lfu.go:107-143` | Accepts exactly decay_lambda in [0, 1]; the period becomes the largest number of decays that fit into 1, 0 for no decay, and counting restarts |
| `Lfu.LFU.IncrementLocked` | `cache/policy/lfu.go:167-193` | Moves the key to the front of the bucket of the next frequency, capped at 2^16 |
| `Lfu.LFU.Detach` | `cache/policy/lfu.go:181-185` | Unlinks a tracked key's element by its pointer, which takes out exactly that key, and drops an emptied bucket |
| `Lfu.LFU.Attach` | `cache/policy/lfu.go:186-192` | Pushes a new element onto the front of a bucket, made if missing, and points the index to it |
| `Lfu.LFU.OnAccess` | `cache/policy/lfu.go:147-162` | Increments and, at the end of a period, ages in the map order used; a no-op for unknown keys |
| `Lfu.LFU.OnInsert` | `cache/policy/lfu.go:200-218` | A new key goes to the front of bucket 1; a tracked one is incremented without counting towards ageing |
| `Lfu.LFU.OnRemove` | `cache/policy/lfu.go:221-238` | Drops the key from bucket, index and counters |
| `Lfu.LFU.LowestFreqLocked` | `cache/policy/lfu.go:260-278` | Finds the least frequency with a bucket, or 0 if there is none |
| `Lfu.LFU.Victim` | `cache/policy/lfu.go:243-256` | Names the tail of the lowest bucket, and fails exactly when nothing is tracked |
| `Lfu.LFU.Candidates` | `cache/policy/lfu.go:282-300` | Lists the lowest bucket from its tail, lap after lap, until it has n keys |
| `Lfu.LFU.AppendFromTail` | `cache/policy/lfu.go:295-297` | One lap appends the bucket from its tail, as far as n allows |
| `Lfu.LFU.AgeLocked` | `cache/policy/lfu.go:309-347` | The nested loops perform the pass on values for the order in which the buckets were listed |
| `Lfu.LFU.AgeBucketLocked` | `cache/policy/lfu.go:316-346` | One round moves a whole bucket, reversed, in front of the bucket of half its frequency, and leaves every element pointer on the new element |
| `Lfu.LFU.Relink` | `cache/policy/lfu.go:335-343` | One step of the inner loop unlinks the front element, pushes a new one for its key, and refreshes frequency and pointer |
| `Lfu.LFU.Rebuild` | `cache/policy/lfu.go:353-380` | Adopts the entries in order with their clamped access counts |
| `Lfu.LFU.MetadataBytes` | `cache/policy/lfu.go:388-395` | 64 bytes per tracked key |
| `Lfu.LFU.Reset` | `cache/policy/lfu.go:398-406` | Forgets all keys and the ageing counter, keeps the period |
| `ClockStates.LiveCountsKeys` | `cache/policy/clock.go:45-52` | The live count is the number of indexed keys |
| `ClockStates.MarkKeepsRing` | `cache/policy/clock.go:75-81` | Setting a reference bit keeps ring and index |
| `ClockStates.MarkSetsBit` | `cache/policy/clock.go:75-99` | An access, or a re-insertion, of a tracked key sets the bit of its slot and leaves every other slot, the hand, the index and the live count as they were |
| `ClockStates.RemoveKeepsRing` | `cache/policy/clock.go:158-166` | A removal frees just the slot of that key, drops it from index and live count, and leaves the hand where it is |
| `ClockStates.GrowthMovesNothing` | `cache/policy/clock.go:126-154` | On a well-formed ring the packing of occupied slots changes no slot and no index entry, and the hand goes to the first new slot |
| `ClockStates.RegrowthIsIdle` | `cache/policy/clock.go:111-116` | On any ring the live count is below the capacity after growing, so the second growth in the probing loop does nothing |
| `ClockStates.GrowKeepsRing` | `cache/policy/clock.go:126-154` | Growth keeps keys, bits and slot order, at most doubles a full ring and leaves a free slot |
| `ClockStates.ProbeFindsFree` | `cache/policy/clock.go:108-117` | The probe reaches a free slot within one lap if there is one |
| `ClockStates.InsertFindsFree` | `cache/policy/clock.go:101-117` | After growth the probe always ends at a free slot within one lap, so the defensive second growth is never reached |
| `ClockStates.PlacingKeepsRing` | `cache/policy/clock.go:118-121` | Placing a new key in a free slot keeps the index a bijection onto the occupied slots |
| `ClockStates.InsertKeepsRing` | `cache/policy/clock.go:92-122` | An insertion adds just the key; the ring stays well formed if and only if the key is not the empty string, which would leave the live count one above the occupied slots |
| `ClockStates.CapForHolds` | `cache/policy/clock.go:259-262` | The rebuilt capacity is a power of two that holds all entries and is below twice their number |
| `ClockStates.IndexOfLookup` | `cache/policy/clock.go:268-272` | The rebuilt index maps every entry's key to its position |
| `ClockStates.RebuildMakesRing` | `cache/policy/clock.go:256-273` | Rebuild indexes exactly the listed keys, all bits clear, on the least power of two that holds them; the ring is well formed if and only if none of them is the empty string |
| `ClockLaws.WalkTurnsRing` | `cache/policy/clock.go:179-191` | Passing n slots turns the ring by n, clears exactly the bits passed, and keeps index and keys |
| `ClockLaws.SweepPassesHotSlots` | `cache/policy/clock.go:179-191` | The victim walk goes past every slot that is empty or referenced |
| `ClockLaws.SweepStopsAtCold` | `cache/policy/clock.go:179-196` | The walk stops at the first cold slot, names its key and leaves the hand there |
| `ClockLaws.FullLap` | `cache/policy/clock.go:179-191` | With no cold slot the walk clears every bit in one lap and starts again from the same slot |
| `ClockLaws.VictimMeetsRingSpec` | `cache/policy/clock.go:172-207` | The victim is the first unreferenced key in ring order and exactly the bits before it are cleared; if all are referenced, all are cleared and the first key is it |
| `ClockLaws.VictimWithinTwoLaps` | `cache/policy/clock.go:178-206` | The walk ends inside its bound of two laps, so the fallback below the loop is never reached |
| `ClockLaws.VictimKeepsRing` | `cache/policy/clock.go:172-207` | Asking for a victim keeps ring, index and size; there is one exactly when a key is tracked, and it is tracked |
| `ClockLaws.VictimIsStable` | `cache/policy/clock.go:192-195` | Asking again gives the same key and changes nothing |
| `ClockLaws.InsertTakesFirstFree` | `cache/policy/clock.go:101-122` | A new key takes the first free slot in ring order, with its bit set, and the hand goes past it, so it is the last key the hand will come to; no other slot changes |
| `ClockRuns.GatherKeepsRing` | `cache/policy/clock.go:214-237` | A batch keeps ring, index and size |
| `ClockRuns.HookKeepsCapBound` | `cache/policy/clock.go:92-237` | No hook takes the capacity to twice the largest number of keys held |
| `ClockRuns.CapBelowTwicePeak` | `cache/policy/clock.go:92-154` | Over every run of hooks the ring stays well formed and its capacity below twice the peak number of keys |
| `ClockRuns.ClearingIsPaidFor` | `cache/policy/clock.go:75-237` | Over every run, the bits cleared and the bits still set never exceed the bits set at first and by accesses and insertions |
| `ClockRuns.BatchPicks` | `cache/policy/clock.go:214-237` | A batch is the cold keys in ring order, then all keys in ring order, cut at n |
| `ClockRuns.EvictionHeadsOrder` | `cache/policy/clock.go:158-207` | One eviction takes the head of the eviction order and leaves its tail as the new order |
| `ClockRuns.RoundsFollowEvictionOrder` | `cache/policy/clock.go:158-207` | n evictions take the cold keys in ring order, then the hot ones, each once |
| `ClockRuns.OrderDistinct` | `cache/policy/clock.go:158-207` | No key comes twice in the eviction order |
| `ClockRuns.CandidatesAreVictimRoundsIff` | `cache/policy/clock.go:214-237` | Candidates(n) equals n single evictions, and has no repeated key, if and only if no key is cold or n is at most the cold keys plus the hot keys met before the first cold one |
| `ClockOrders.AccessDefersEviction` | `cache/policy/clock.go:75-81` | The second chance: once it has been used, a key is evicted only after every other key whose bit is not set |
| `ClockOrders.NewKeyIsEvictedLast` | `cache/policy/clock.go:92-122` | A new key is among the next n victims if and only if n exceeds the number of keys there were |
| `ClockOrders.RebuiltEvictsInListingOrder` | `cache/policy/clock.go:256-273` | A rebuilt Clock evicts its keys in the order in which they were listed |
| `ClockOrders.BatchWalksNoFurther` | `cache/policy/clock.go:219-237` | A batch moves the hand just as far as the last key it picks, at most two laps, and clears exactly the bits it passes |
| `ClockOrders.GrowthPacksInOrder` | `cache/policy/clock.go:133-153` | On any ring that counts as full, growth keeps keys and bits in slot order, puts the occupied slots in front of the hand and the free ones behind it, and indexes every key at its new place |
| `Clocks.Clock.constructor` | `cache/policy/clock.go:57-61` | A new Clock has no ring |
| `Clocks.Clock.OnAccess` | `cache/policy/clock.go:75-81` | Sets the bit of a tracked key's slot, and changes nothing else; a no-op for others |
| `Clocks.Clock.OnInsert` | `cache/policy/clock.go:92-122` | Puts a new key, referenced, in the first free slot from the hand of a ring grown if full, and moves the hand past it; a tracked key is marked; the object stays valid if and only if the key is not the empty string |
| `Clocks.Clock.Place` | `cache/policy/clock.go:107-121` | The probing loop ends at the first free slot from the hand, which takes the key |
| `Clocks.Clock.GrowLocked` | `cache/policy/clock.go:126-154` | Leaves a ring with room alone and doubles a full one |
| `Clocks.Clock.Double` | `cache/policy/clock.go:133-153` | On any buffer that counts as full, a buffer of twice the size gets the occupied slots at its front, indexed and counted anew, and the hand behind them |
| `Clocks.Clock.Pack` | `cache/policy/clock.go:141-149` | The copying loop packs the occupied slots in order and indexes each at its new place |
| `Clocks.Clock.OnRemove` | `cache/policy/clock.go:158-166` | Frees the slot of a tracked key |
| `Clocks.Clock.Victim` | `cache/policy/clock.go:172-207` | The loop over the buffer performs the victim walk |
| `Clocks.Clock.Sweep` | `cache/policy/clock.go:179-196` | The loop itself, up to the return from inside it |
| `Clocks.Clock.Candidates` | `cache/policy/clock.go:214-237` | The loop over the buffer performs the batch walk |
| `Clocks.Clock.Rebuild` | `cache/policy/clock.go:256-273` | Fills a fresh buffer with the entries in order, bits clear, hand at 0; the object is valid if and only if no entry has the empty key |
| `Clocks.Clock.LeastCap` | `cache/policy/clock.go:259-262` | The doubling loop finds the capacity for n entries |
| `Clocks.Clock.MetadataBytes` | `cache/policy/clock.go:279-286` | 24 bytes per slot, occupied or not |
| `Clocks.Clock.Reset` | `cache/policy/clock.go:290-298` | Frees the ring |
| `Policies.AccessContract` | `cache/policy/policy.go:32` | For every policy, OnAccess keeps its structure and its key set |
| `Policies.InsertContract` | `cache/policy/policy.go:33` | For every policy, OnInsert adds the key, and keeps the structure intact if and only if it is not the empty key under Clock |
| `Policies.InsertAlwaysReturns` | `cache/policy/clock.go:107-117` | For every policy with an intact structure, OnInsert returns, for every key |
| `Policies.RemoveContract` | `cache/policy/policy.go:34` | For every policy, OnRemove keeps its structure and drops the key |
| `Policies.VictimContract` | `cache/policy/policy.go:37` | For every policy, Victim names a tracked key, and fails exactly when none is tracked |
| `Policies.RebuildContract` | `cache/policy/policy.go:54` | For every policy, Rebuild tracks exactly the entries, with an intact structure if and only if Clock is not given the empty key |
| `CacheStates.EvictionShrinks` | `cache/core.go:130-147` | A successful eviction takes one object out, whatever its size; so the Put loop ends even when victims free no bytes |
| `CacheLaws.EvictionIsSound` | `cache/core.go:237-253` | An eviction keeps store and policy coherent, and frees an object exactly when the store holds one |
| `CacheLaws.PutIsSound` | `cache/core.go:119-148` | From every coherent cache, a Put leaves store and policy coherent if and only if it fails or does not store the empty key under Clock |
| `CacheLaws.CoherentPutReturns` | `cache/core.go:130-147` | On a coherent cache every Put returns, for every key |
| `CacheLaws.RunKeepsAccounts` | `cache/core.go:79-228` | Bytes and key bytes stay exact over every run of calls, of any keys, coherent or not |
| `CacheLaws.SwitchRestoresCoherence` | `cache/core.go:215-228` | Installing any policy, even over an incoherent one, changes no entry, value, byte or counter, and restores coherence if and only if a Clock does not take over the empty key |
| `CacheLaws.NewCacheSoundIff` | `cache/core.go:56-76` | A new cache is coherent if and only if the policy it is given tracks nothing |
| `CacheLaws.StepIsSound` | `cache/core.go:79-228` | Every call keeps store and policy coherent and the accounts exact |
| `CacheLaws.RunIsSound` | `cache/core.go:79-265` | Coherence and exact accounting hold after every run of calls with any policies and switches |
| `CacheLaws.PutEvictsShortestRun` | `cache/core.go:119-148` | With a policy, a Put of size 0 to capacity succeeds and evicts exactly the shortest run of successive victims after which the object fits, even when the replaced key is among them |
| `CacheLaws.PutSucceedsIff` | `cache/core.go:115-148` | Put returns nil exactly for sizes 0 to capacity, given a policy or enough room; a failing Put changes nothing; a successful one leaves the key with the new value and size |
| `CacheLaws.ClockSoundIffKeyNonEmpty` | `cache/policy/clock.go:34-36` | Every Put that a coherent Clock cache takes keeps it coherent if and only if the key is not the empty string |
| `CacheLaws.PutEvictsWhileItCan` | `cache/core.go:130-147` | Whatever state the policy is in, coherent or not, a Put of size 0 to capacity evicts until the object fits and then inserts it, or until an eviction frees nothing and then fails with the cache as that eviction leaves it |
| `CacheLaws.PutErrors` | `cache/core.go:130-147` | From any state with exact accounts, a Put fails for a negative size, for one above the capacity, or because the object still does not fit when no more can be evicted, with the error of that case |
| `CacheLaws.RemoveTakesOut` | `cache/core.go:256-265` | Remove says whether the key was present, takes out just that key, and changes nothing when it is missing |
| `CacheLaws.GetReturnsResident` | `cache/core.go:79-113` | A Get hits exactly the resident keys, returns their value, and changes nothing of the store but one access count |
| `CacheLaws.GetReturnsWhatWasPut` | `cache/core.go:79-148` | A Get right after a Put that succeeds returns the value put |
| `CacheLaws.EvictionTakesVictim` | `cache/core.go:237-253` | With any policy structure intact, coherent or not, an eviction takes exactly the victim out of the policy and, if it is resident, out of the store, and counts it with its size only then |
| `CacheLaws.ClearStartsAnew` | `cache/core.go:193-200` | Clear leaves a new cache of the same capacity, kind of policy and ageing period, but for the counters |
| `EmptyKey.SweepTwin` | `cache/policy/clock.go:178-206` | A ring that holds the empty key is swept like the well-formed ring without it, and names the same victim |
| `EmptyKey.EmptyKeyKeepsItsBytes` | `cache/core.go:119-148` | After a coherent Clock cache has stored the empty key, a Put of another key succeeds if and only if its size is not negative and fits the capacity beside the empty key's object |
| `EmptyKey.ClockNeedsNonEmptyKeys` | `cache/policy/clock.go:34-36` | On a full Clock cache of one object the next Put succeeds if and only if that object's key is not the empty string |
| `EmptyKey.LiveFallsBehind` | `cache/policy/clock.go:141-166` | Once the ring has grown, the empty key shares a slot with another key, and removing both leaves the live count below the occupied slots |
| `EmptyKey.InsertionsReturnIff` | `cache/policy/clock.go:107-117` | For keys from a set with two other keys, every insertion of every run from a new Clock returns if and only if the empty key is not in the set |
| `CacheRuns.CacheIsPartOfMap` | `cache/core.go:79-148` | After every run, of any keys under any policies, the cache is a part of the unbounded map that remembers the successful Puts |
| `CacheRuns.HitsAreTransparent` | `cache/core.go:79-113` | From a new cache, after any run, a hit returns the value of the last successful Put with no later Remove or Clear |
| `CacheRuns.EvictionBalances` | `cache/core.go:237-253` | An eviction moves one object and its bytes from resident to evicted |
| `CacheRuns.PutBalances` | `cache/core.go:130-147` | A Put balances the ledger, with its evictions |
| `CacheRuns.LedgerBalances` | `cache/core.go:79-265` | Over every run of any keys from exact accounts: objects added = resident + evicted + removed + cleared, the same for bytes, bytes fetched = sizes of successful Puts, bytes served = sizes of hit objects, and each Get counts as a hit or as a miss with a backend request |
| `CacheRuns.NewCacheBalances` | `cache/core.go:56-76` | A new cache starts with a balanced ledger |
| `CacheRuns.BumpKeepsMatch` | `cache/policy/lfu.go:167-173` | One more access keeps frequency = min(access count, 2^16) if and only if the 32-bit count does not wrap |
| `CacheRuns.SwitchFollowsCounts` | `cache/core.go:215-228` | Installing a policy gives one of that kind; an LFU has the period it was given, a counter of 0, and every resident key's clamped access count |
| `CacheRuns.FrequenciesFollowCounts` | `cache/core.go:79-265` | Without decay, an installed LFU holds min(access count, 2^16) for every resident key after every run of hits, replacements, evictions and switches, of any keys |
| `CacheRuns.HitFollowsCountIff` | `cache/store.go:54-55` | A hit keeps frequency and access count in step if and only if the count is not at its 32-bit maximum |
| `EvictionOrders.EvictionsTakeVictims` | `cache/core.go:237-253` | n evictions of a coherent cache take exactly the next n victims of its policy |
| `EvictionOrders.LruHitOutlivesOthers` | `cache/policy/lru.go:62-68` | Under LRU an object just hit is resident after n evictions if and only if n is below the number of objects |
| `EvictionOrders.LruPutOrder` | `cache/policy/lru.go:74-87` | A Put under LRU drops the tail of the recency order as far as room is needed; an object still resident then keeps its place, any other becomes the most recent |
| `EvictionOrders.LruReplacementIsNoUse` | `cache/policy/lru.go:77-82` | A replacing Put that evicts nothing leaves the recency order and the next victim as they were |
| `EvictionOrders.ClockHitOutlivesUnused` | `cache/policy/clock.go:75-81` | Under Clock an object just hit is still resident after as many evictions as there are other objects without a bit |
| `EvictionOrders.ClockNewOutlivesOthers` | `cache/policy/clock.go:92-122` | Under Clock an object just added is resident after n evictions if and only if n is at most the number of objects there were |
| `EvictionOrders.InstalledEvictsInListingOrder` | `cache/core.go:215-228` | After a switch to LRU or Clock, n evictions take the first n objects in the order in which they were listed |
| `LruInclusion.KeptIsLongestPrefix` | `cache/core.go:130-147` | What evictions keep of a recency order is its longest prefix within the room left |
| `LruInclusion.ServedKeepsPrefix` | `cmd/adaptive-cache/main.go:165-170` | One request keeps the smaller cache's recency order a prefix of the larger one's |
| `LruInclusion.PutKeepsLongestPrefix` | `cache/core.go:130-147` | A Put of a missing object keeps the longest prefix of the recency order that leaves room for it |
| `LruInclusion.RequestServes` | `cmd/adaptive-cache/main.go:165-170` | A Get and, on a miss, a Put on the real cache state does to its recency order what the request does on orders |
| `LruInclusion.ReplayKeepsPrefix` | `cmd/adaptive-cache/main.go:165-170` | Over every trace without sizes between the two capacities, the smaller cache's order stays a prefix of the larger one's, and its hits do not exceed the larger one's |
| `LruInclusion.LargerLruNeverWorse` | `cmd/adaptive-cache/main.go:165-170` | For every trace of objects that fit both caches or neither, the smaller one's resident keys are among the larger one's and it has at most as many hits |
| `LruInclusion.ContentsArePrefixOfStack` | `cache/policy/lru.go:62-114` | What an LRU cache holds is always a prefix of the recency stack of its trace |
| `LruInclusion.OversizedIsRefused` | `cache/store.go:76-78` | A request for an object larger than the cache changes neither its contents nor its hits |
| `LruInclusion.FirstStaysOnlyIfAllFit` | `cache/core.go:130-147` | The first object of a trace of distinct ones is still resident at the end only if all of them fit |
| `LruInclusion.OversizedObjectsBreakInclusion` | `cache/core.go:130-147` | Enough objects too large for the smaller cache make it keep a key that the larger one evicts |
| `LruInclusion.InclusionIff` | `cmd/adaptive-cache/main.go:165-170` | For sizes drawn from a set, inclusion holds for all traces and all size functions if and only if no size in the set lies above the smaller and within the larger capacity, or none fits the smaller cache |
| `Cores.Core.constructor` | `cache/core.go:56-76` | A new cache has an empty store, zero counters and the given policy as it is; it is coherent if and only if that policy tracks nothing |
| `Cores.Core.Get` | `cache/core.go:79-113` | Returns the resident value, counts the hit or miss, touches the entry and tells the policy |
| `Cores.Core.Put` | `cache/core.go:119-148` | The loop ends in the state and error that insertion with evictions has on values; it keeps coherence, and valid objects, if and only if it fails or does not store the empty key under Clock |
| `Cores.Core.Round` | `cache/core.go:130-147` | One round inserts and ends the loop, or fails and ends it, or evicts one object and leaves the outcome of the Put unchanged |
| `Cores.Core.Attempt` | `cache/core.go:131-140` | An insertion that the store takes is passed to the policy and counted as fetched; a refused one changes nothing |
| `Cores.Core.EvictOneLocked` | `cache/core.go:237-253` | Removes the policy's victim from store and policy and counts it; a victim the store lacks is dropped from the policy |
| `Cores.Core.Remove` | `cache/core.go:151-155` | Returns whether the key was present, takes just that key out of store and policy, and changes nothing when it is missing |
| `Cores.Core.Clear` | `cache/core.go:193-200` | Empties store and policy and leaves the counters |
| `Cores.Core.SetPolicy` | `cache/core.go:215-228` | Installs the policy rebuilt from the resident entries and leaves store and counters; the cache is then coherent if and only if a Clock does not take over the empty key |
| `Collectors.Collector.RecordRequest` | `metrics/collector.go:111-122` | Counts a request as a hit with bytes served or a miss with bytes fetched |
| `Collectors.Collector.RecordFetch` | `metrics/collector.go:127-129` | Counts bytes fetched |
| `Collectors.Collector.RecordEviction` | `metrics/collector.go:132-135` | Counts an eviction and its bytes |
| `SnapshotRuns.StepKeepsInv` | `metrics/collector.go:111-120` | Under every interleaving each counter is the number of requests that have added to it, and the total is hits plus misses plus the requests between their two additions |
| `SnapshotRuns.UndisturbedRequest` | `metrics/collector.go:111-120` | A request recorded while nothing else happens adds one to the total, and one to the hits or to the misses |
| `SnapshotRuns.SnapshotsAreConsistent` | `metrics/collector.go:177-184` | Every snapshot, however interleaved, has hits + misses at most total, and each count between its values when the snapshot was begun and when it was done |
| `SnapshotRuns.QuietSnapshot` | `metrics/collector.go:177-184` | A snapshot taken while no request is being recorded has the number of all requests, of hits and of misses |
| `Buckets.ValueInItsBucket` | `metrics/latency.go:42-50` | Every 64-bit value lands in a bucket from 0 to 975 whose interval contains it |
| `Buckets.NextBucket` | `metrics/latency.go:53-62` | Each bucket's interval ends where the next begins |
| `Buckets.LastBucketEndsAt64Bits` | `metrics/latency.go:12-15` | The 976 intervals cover exactly the 64-bit range, so no shift or bound overflows |
| `Buckets.BucketIffInterval` | `metrics/latency.go:42-62` | A value has index i if and only if it lies in the interval that the midpoint of i is computed from |
| `Buckets.BucketIndexMonotone` | `metrics/latency.go:42-50` | Larger values have no smaller bucket |
| `Buckets.EveryBucketIsUsed` | `metrics/latency.go:12-15` | Every one of the 976 buckets is hit by some value |
| `Buckets.MidpointError` | `metrics/latency.go:53-62` | A midpoint is within 1/32 of every value of its bucket, and exact below 16 |
| `Buckets.MidpointMonotone` | `metrics/latency.go:53-62` | Midpoints grow with the index |
| `Histograms.RankWithinBuckets` | `metrics/latency.go:113-123` | In sorted data, more than t values lie below bucket i if and only if the value at position t does |
| `Histograms.ScanStopsAtStatistic` | `metrics/latency.go:109-123` | The accumulated count exceeds the target exactly from the bucket of the order statistic on |
| `Histograms.StatisticIffQuantile` | `metrics/latency.go:98-112` | The order statistic is the one recorded value such that at most the fraction q of all values lie below it, and more than that do not lie above it unless it is the largest; q is forced into [0, 1] |
| `Histograms.ExtremeStatistics` | `metrics/latency.go:99-112` | For q from 0 down it is the smallest recorded value, for q from 1 up the largest |
| `Histograms.QuantileError` | `metrics/latency.go:96-125` | The reported quantile is within 1/32 of that order statistic, and exact below 16 ns |
| `Histograms.QuantileMonotone` | `metrics/latency.go:98-125` | Reported quantiles grow with q |
| `Histograms.MeanExactIff` | `metrics/latency.go:85-91` | The mean computed from the wrapped sum, times the number of values, is their true sum if and only if the sum is below 2^64 |
| `Histograms.MeanBalances` | `metrics/latency.go:85-91` | The mean lies between any two bounds on the recorded values |
| `Histograms.Histogram.Record` | `metrics/latency.go:65-79` | Adds the duration to the recorded data, in bucket, count, sum and maximum; negative ones are ignored |
| `Histograms.Histogram.RaiseMax` | `metrics/latency.go:73-78` | The compare-and-swap loop leaves the larger of maximum and value |
| `Histograms.Histogram.MeanMillis` | `metrics/latency.go:85-91` | The mean of the recorded data as long as their sum is below 2^64, and 0 when there are none |
| `Histograms.Histogram.QuantileMillis` | `metrics/latency.go:98-125` | Within 1/32 of the recorded value at the fraction q, and equal to it below 16 ns; 0 when there is none |
| `Histograms.Histogram.Scan` | `metrics/latency.go:113-123` | The scan stops at the bucket of the order statistic |
| `Histograms.Histogram.Reset` | `metrics/latency.go:137-144` | Forgets all data |
| `Recording.RecorderKeepsTallies` | `metrics/latency.go:69-72` | After every atomic step of a recorder each shared word is the tally of the recorders that have passed it |
| `Recording.RecorderKeepsMax` | `metrics/latency.go:73-78` | The maximum never falls, is some recorder's value and bounds the finished ones |
| `Recording.ReaderStaysInScan` | `metrics/latency.go:105-123` | A reader has seen at least what its buckets held when it loaded the count, so it cannot run out of buckets |
| `Recording.StepKeepsInv` | `metrics/latency.go:65-125` | Every step of every recorder and reader keeps the protocol's invariant |
| `Recording.ScanNeverFallsThrough` | `metrics/latency.go:105-124` | Under every interleaving the bucket total never falls below the count, and no reader reaches the line after its scan |
| `Recording.AnswerLiesBetween` | `metrics/latency.go:105-123` | However recorders race with it, a quantile answers with a bucket between the one that holds its rank at the answer and the one that held it when the count was loaded |
| `Recording.UndisturbedAnswer` | `metrics/latency.go:105-123` | If nothing was recorded meanwhile, the answer is the bucket that holds the rank |
| `Recording.QuietQueryAnswers` | `metrics/latency.go:98-123` | A quantile taken while nothing is being recorded scans to the bucket of the order statistic of all values recorded before |
| `Recording.QuiescentIsSequential` | `metrics/latency.go:65-79` | When all recorders have finished, the words are those of recording the values one at a time; the maximum is the largest |
| `Recording.UndisturbedRecord` | `metrics/latency.go:65-79` | A recorder alone ends after four steps, or five when it raises the maximum, with its value in one bucket, count, sum and maximum |
| `Recording.StepComesNearer` | `metrics/latency.go:73-78` | Recording is lock-free: every step of a recorder is one less to take, and only another recorder that has just finished can make it take more |
| `Recording.AloneFinishes` | `metrics/latency.go:65-79` | From every reachable state, whatever the others have left undone, a recorder that runs alone finishes, in at most five steps |
| `BusProtocol.StepKeepsInv` | `events/bus.go:73-176` | Every step of publishers, writers and consumers keeps the bus invariant |
| `BusProtocol.BusNeverPanics` | `events/bus.go:160-176` | Under every interleaving no send hits a closed channel, no channel is closed twice, and map and list hold the same subscribers |
| `BusProtocol.PublishesAreAccountedFor` | `events/bus.go:73-90` | With no publish in flight, what was due to a subscription = received + buffered + dropped |
| `BusProtocol.PublisherOrderIsKept` | `events/bus.go:79-89` | What a subscriber received or buffered of one publisher is in that publisher's order |
| `BusProtocol.OfferKeepsChannel` | `events/bus.go:83-88` | An offered event is received, buffered or dropped, and the channel keeps its order and bound |
| `BusProtocol.TrySendKeepsInv` | `events/bus.go:79-89` | One send attempt keeps the invariant and finds its channel open |
| `BusProtocol.SubscribeKeepsInv` | `events/bus.go:98-123` | Subscribing, under a new or a used name or on a closed bus, keeps the invariant |
| `BusProtocol.DropKeepsInv` | `events/bus.go:163-176` | Removing a subscriber closes its open channel once and keeps the invariant |
| `BusProtocol.CloseKeepsInv` | `events/bus.go:146-158` | Closing the bus closes every registered channel once and keeps the invariant |
| `BusProtocol.UninterruptedPublish` | `events/bus.go:73-90` | A publish nothing interrupts gives the event to every interested subscriber: to a waiting receive, else to the end of a buffer with room, else as one more drop; no other channel is touched |
| `BusSubscriptions.SubscribeRegisters` | `events/bus.go:98-123` | Subscribe registers, last in order, an empty subscription of the name given, with buffer max(buf, 0), that wants a kind if and only if no types or that declared type was given; it replaces and closes the one of the same name, and on a closed bus only yields a closed channel |
| `BusSubscriptions.UnsubscribeTakesOut` | `events/bus.go:127-131` | Unsubscribe takes the subscription of that name, if any, out of map and list and closes just its channel |
| `BusSubscriptions.CloseEndsAll` | `events/bus.go:146-158` | Close closes every channel and empties map and list; what is buffered stays |
| `BusSubscriptions.ReceiveTakesOldest` | `events/bus.go:79-89` | A receive takes the oldest buffered event of its own channel, open or closed, and touches no other |
| `BusSubscriptions.StepKeepsTerms` | `events/bus.go:73-176` | No step changes the name, buffer size or filter of a subscription or takes back what it has received |
| `BusSubscriptions.SubscriberGetsItsTypes` | `events/bus.go:73-123` | From Subscribe on, under every interleaving: the events published of the types asked for while registered are, with none in flight, exactly as many as received + buffered + dropped, and those received or buffered are in each publisher's order |
| `BusSubscriptions.PublishMeetsTerms` | `events/bus.go:73-90` | An uninterrupted publish reaches a registered subscriber if and only if it asked for the type: received if waiting, else buffered within the buffer asked for, else counted as dropped |
| `Buses.MemBus.Publish` | `events/bus.go:73-90` | Every registered subscriber that wants the event has it taken by a blocked receive, or buffered, or counts a drop; others are unchanged |
| `Buses.Subscriber.TrySend` | `events/bus.go:83-88` | The non-blocking send on an open channel: a blocked receive takes the event, or a buffer with room does, or it fails |
| `Buses.MemBus.Subscribe` | `events/bus.go:98-123` | Registers a fresh subscriber with the filter given, replacing and closing one of the same name; on a closed bus its channel is closed |
| `Buses.MemBus.Unsubscribe` | `events/bus.go:127-131` | Takes the named subscriber out of map and list and closes just its channel |
| `Buses.MemBus.RemoveLocked` | `events/bus.go:163-176` | Removes and closes the named subscriber, if any |
| `Buses.MemBus.CutStaysRegistered` | `events/bus.go:168-174` | Cutting a subscriber out of map and list leaves both holding the same other subscribers, once each and open |
| `Buses.MemBus.Detach` | `events/bus.go:168-174` | Cutting the list at the subscriber leaves the others in order |
| `Buses.MemBus.DroppedCount` | `events/bus.go:135-142` | The named subscriber's drops, or 0 if unknown |
| `Buses.MemBus.Close` | `events/bus.go:146-158` | Closes every channel and empties map and list, once |

## Left out

- `container/list` itself: a list is the sequence of its elements, so its links are not modelled.
- The `*types.Entry` pointers that policies keep, and the entries' time stamps and `PolicyMeta`: nothing in
  the modelled code reads them.
- Key-byte totals, counters, LFU's `ageCnt`, and histogram buckets and count are unbounded integers; modelled
  widths are the int64 byte count, the uint32 access count, the int64 duration and the uint64 sum.
- Floating-point rounding: quantiles, means and `decay_lambda` are reals. `uint64(1.0 / decay)` for a decay so
  small that the quotient exceeds 64 bits is therefore not modelled, nor are NaN arguments.
- Cores.Core.Get: the operation sequence number, event sampling and publishing, and the measured latency
  have no effect on the cache and are left out.
- Cores.Core.Put: likewise; `ShouldAdmit` is true in every shipped policy and is not called.
- Collectors.Collector.RecordRequest: the latency observation of the call is modelled by the histogram on its
  own, not as part of the collector.
- Clocks.Clock.OnAccess: like every method of Clock but Double, requires a valid object; what follows on a ring
  into which the empty key has been put is modelled on values only.
- The mutexes of the core, the store and the policies: their calls are serialised, so the objects are
  sequential. `Core.Stats` and `Core.Memory` take several locks in turn and are not modelled.
- BusProtocol.StepKeepsInv: Subscribe, Unsubscribe and Close hold the write lock throughout and are single
  steps; a failed send and the increment of the drop counter are one step, as nobody but DroppedCount can
  see the state between them.
- Resetting a histogram or a collector while others record, collector resets, and the ratios, latencies and
  switch fields of a snapshot: only its three request counters are modelled.
- Configuration, command line, CSV and JSON output, memory sampling and the policy registry: plumbing whose
  members would be easy.
