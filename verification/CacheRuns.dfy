/** Laws of the cache over whole runs: transparency, the eviction ledger, and the frequencies an LFU holds. */
module CacheRuns {
  import opened Base
  import opened Stores
  import opened Policies
  import opened CacheStates
  import opened CacheLaws
  import Collectors
  import LfuStates
  import LfuLaws

  // ---------- Transparency ----------

  /** What an unbounded map would hold after the same calls, given which Puts succeeded. */
  ghost function Remembered(truth: map<Key, Value>, s: CacheState, op: Op): map<Key, Value> {
    match op
    case Put(key, val, size) => if Stored(s, key, val, size).1.Refused? then truth else truth[key := val]
    case Remove(key) => truth - {key}
    case Clear => map[]
    case _ => truth
  }

  ghost function AllRemembered(truth: map<Key, Value>, s: CacheState, ops: seq<Op>): map<Key, Value>
    requires PossibleRun(s, ops)
    decreases |ops|
  {
    if ops == [] then truth
    else AllRemembered(Remembered(truth, s, ops[0]), Step(s, ops[0]), ops[1..])
  }

  ghost predicate Reflects(items: map<Key, Resident>, truth: map<Key, Value>) {
    forall k :: k in items ==> k in truth && truth[k] == items[k].value
  }

  lemma {:induction false} PutReflects(s: CacheState, truth: map<Key, Value>, key: Key, val: Value, size: int)
    requires Reflects(s.store.items, truth)
    ensures var (t, placed) := Stored(s, key, val, size);
            Reflects(t.store.items, if placed.Refused? then truth else truth[key := val])
    decreases |s.store.items|
  {
    var placed := Stores.Inserted(s.store, key, val, size).1;
    if placed == Refused(CapacityExceeded) && s.policy != NoPolicy && EvictedOne(s).1 {
      EvictionShrinks(s);
      PutReflects(EvictedOne(s).0, truth, key, val, size);
    }
  }

  /** The cache is always a part of the unbounded map: with any policies, any switches and any keys, whatever
      is resident carries the value of its last successful Put since it was last removed or cleared. */
  lemma {:induction false} CacheIsPartOfMap(s: CacheState, truth: map<Key, Value>, ops: seq<Op>)
    requires Reflects(s.store.items, truth) && PossibleRun(s, ops)
    ensures Reflects(Run(s, ops).store.items, AllRemembered(truth, s, ops))
    decreases |ops|
  {
    if ops != [] {
      match ops[0] {
        case Put(key, val, size) => PutReflects(s, truth, key, val, size);
        case _ =>
      }
      CacheIsPartOfMap(Step(s, ops[0]), Remembered(truth, s, ops[0]), ops[1..]);
    }
  }

  /** A hit returns what the unbounded map would return. */
  lemma HitsAreTransparent(capacity: int, kind: Kind, ops: seq<Op>, key: Key, visit: seq<nat>)
    requires PossibleRun(NewCache(capacity, kind), ops)
    ensures var truth := AllRemembered(map[], NewCache(capacity, kind), ops);
            var hit := Got(Run(NewCache(capacity, kind), ops), key, visit).1;
            hit.Some? ==> key in truth && hit.value == truth[key]
  {
    CacheIsPartOfMap(NewCache(capacity, kind), map[], ops);
  }

  // ---------- The ledger ----------

  /** What went in, what was taken out on request, and what was served. */
  datatype Flow = Flow(added: nat, removed: nat, cleared: nat,
                       admittedBytes: int, removedBytes: int, clearedBytes: int, fetchedBytes: int,
                       hits: nat, misses: nat, servedBytes: int)

  const NO_FLOW := Flow(0, 0, 0, 0, 0, 0, 0, 0, 0, 0)

  function NotedPut(f: Flow, placed: Placement, size: int): Flow {
    match placed
    case Refused(_) => f
    case Added =>
      f.(added := f.added + 1, admittedBytes := f.admittedBytes + size, fetchedBytes := f.fetchedBytes + size)
    case Replaced(oldSize) =>
      f.(admittedBytes := f.admittedBytes + size - oldSize, fetchedBytes := f.fetchedBytes + size)
  }

  ghost function Noted(f: Flow, s: CacheState, op: Op): Flow {
    match op
    case Get(key, _) =>
      if key in s.store.items then f.(hits := f.hits + 1, servedBytes := f.servedBytes + s.store.items[key].size)
      else f.(misses := f.misses + 1)
    case Put(key, val, size) => NotedPut(f, Stored(s, key, val, size).1, size)
    case Remove(key) =>
      if key in s.store.items then
        f.(removed := f.removed + 1, removedBytes := f.removedBytes + s.store.items[key].size)
      else f
    case Clear => f.(cleared := f.cleared + |s.store.items|, clearedBytes := f.clearedBytes + s.store.bytes)
    case _ => f
  }

  ghost function AllNoted(f: Flow, s: CacheState, ops: seq<Op>): Flow
    requires PossibleRun(s, ops)
    decreases |ops|
  {
    if ops == [] then f else AllNoted(Noted(f, s, ops[0]), Step(s, ops[0]), ops[1..])
  }

  /** Objects and bytes that went in are resident, evicted, removed or cleared; nothing is lost. Every request is
      a hit, of an object whose bytes were served, or a miss, which goes to the backend. */
  ghost predicate Balanced(s: CacheState, f: Flow) {
    && f.added == |s.store.items| + s.counters.evictions + f.removed + f.cleared
    && f.admittedBytes == s.store.bytes + s.counters.evictedBytes + f.removedBytes + f.clearedBytes
    && f.fetchedBytes == s.counters.bytesFetched
    && f.hits == s.counters.hits && f.misses == s.counters.misses == s.counters.backendReqs
    && f.hits + f.misses == s.counters.total
    && f.servedBytes == s.counters.bytesServed
  }

  lemma EvictionBalances(s: CacheState, f: Flow)
    requires SafeCapacity(s.store.capacity) && Accounted(s.store) && Balanced(s, f)
    ensures Balanced(EvictedOne(s).0, f)
  {
    if EvictedOne(s).1 {
      EvictionShrinks(s);
      RemoveKeepsAccounts(s.store, VictimOf(s.policy).1.value);
    }
  }

  /** A Put whose first attempt succeeds. */
  lemma StoredAtOnce(s: CacheState, key: Key, val: Value, size: int)
    requires !Stores.Inserted(s.store, key, val, size).1.Refused?
    ensures var (store, placed) := Stores.Inserted(s.store, key, val, size);
            && Stored(s, key, val, size) ==
                 (CacheState(store, Policies.Inserted(s.policy, key), Collectors.Fetched(s.counters, size)), placed)
            && store.items.Keys == s.store.items.Keys + {key}
  {
    hide Policies.Inserted;
  }

  lemma InsertBalances(s: CacheState, f: Flow, key: Key, val: Value, size: int)
    requires SafeCapacity(s.store.capacity) && Accounted(s.store) && IsInt64(size) && Balanced(s, f)
    requires !Stores.Inserted(s.store, key, val, size).1.Refused?
    ensures Balanced(Stored(s, key, val, size).0, NotedPut(f, Stored(s, key, val, size).1, size))
  {
    hide Stored, Stores.Inserted, Policies.Inserted, Accounted;
    InsertKeepsAccounts(s.store, key, val, size);
    StoredAtOnce(s, key, val, size);
    var items, items' := s.store.items, Stores.Inserted(s.store, key, val, size).0.items;
    assert |items'.Keys| == |items.Keys| + if key in items then 0 else 1;
  }

  lemma {:induction false} PutBalances(s: CacheState, f: Flow, key: Key, val: Value, size: int)
    requires SafeCapacity(s.store.capacity) && Accounted(s.store) && IsInt64(size) && Balanced(s, f)
    ensures Balanced(Stored(s, key, val, size).0, NotedPut(f, Stored(s, key, val, size).1, size))
    decreases |s.store.items|
  {
    var placed := Stores.Inserted(s.store, key, val, size).1;
    if !placed.Refused? {
      InsertBalances(s, f, key, val, size);
    } else if placed.error == CapacityExceeded && s.policy != NoPolicy {
      EvictionKeepsAccounts(s);
      EvictionBalances(s, f);
      if EvictedOne(s).1 {
        EvictionShrinks(s);
        assert Stored(s, key, val, size) == Stored(EvictedOne(s).0, key, val, size);
        PutBalances(EvictedOne(s).0, f, key, val, size);
      }
    }
  }

  lemma GetBalances(s: CacheState, f: Flow, key: Key, visit: seq<nat>)
    requires Balanced(s, f)
    ensures Balanced(Got(s, key, visit).0, Noted(f, s, Get(key, visit)))
  {
    assert key in s.store.items ==> Touched(s.store, key).items.Keys == s.store.items.Keys;
    assert |Touched(s.store, key).items.Keys| == |s.store.items.Keys|;
  }

  lemma RemoveBalances(s: CacheState, f: Flow, key: Key)
    requires SafeCapacity(s.store.capacity) && Accounted(s.store) && Balanced(s, f)
    ensures Balanced(Deleted(s, key).0, Noted(f, s, Remove(key)))
  {
    RemoveKeepsAccounts(s.store, key);
    if key in s.store.items {
      assert s.store.items.Keys == (s.store.items - {key}).Keys + {key};
    }
  }

  lemma StepBalances(s: CacheState, f: Flow, op: Op)
    requires SafeCapacity(s.store.capacity) && Accounted(s.store) && Possible(s, op) && Balanced(s, f)
    ensures Balanced(Step(s, op), Noted(f, s, op))
  {
    match op {
      case Get(key, visit) => GetBalances(s, f, key, visit);
      case Put(key, val, size) =>
        PutBalances(s, f, key, val, size);
        hide Stored, Balanced;
      case Remove(key) => RemoveBalances(s, f, key);
      case Clear =>
      case SetPolicy(kind, listing) =>
    }
  }

  /** The ledger balances after every run, of every key, and the fetched bytes are the sizes of the successful
      Puts. */
  lemma {:induction false} LedgerBalances(s: CacheState, f: Flow, ops: seq<Op>)
    requires SafeCapacity(s.store.capacity) && Accounted(s.store) && PossibleRun(s, ops) && Balanced(s, f)
    ensures Balanced(Run(s, ops), AllNoted(f, s, ops))
    decreases |ops|
  {
    if ops != [] {
      StepKeepsAccounts(s, ops[0]);
      StepBalances(s, f, ops[0]);
      LedgerBalances(Step(s, ops[0]), Noted(f, s, ops[0]), ops[1..]);
    }
  }

  lemma NewCacheBalances(capacity: int, kind: Kind)
    ensures Balanced(NewCache(capacity, kind), NO_FLOW)
  {
  }

  // ---------- LFU frequencies and access counts ----------

  /** An installed LFU that does not age holds, for every resident key, its clamped access count. */
  ghost predicate FollowsCounts(s: CacheState) {
    s.policy.LfuPolicy? && s.policy.lfu.ageMax == 0 ==> Match(s.policy.lfu.freq, s.store.items)
  }

  ghost predicate Match(freq: map<Key, nat>, items: map<Key, Resident>) {
    forall k :: k in items ==> k in freq && freq[k] == Max(1, Min(items[k].accessCount, 0x1_0000))
  }

  /** Access counts lie between 1 and `bound`, so that one more access does not wrap them. */
  ghost predicate CountsWithin(s: CacheState, bound: nat) {
    forall k :: k in s.store.items ==> 1 <= s.store.items[k].accessCount <= bound
  }

  /** One more access moves frequency and count together, short of the wrap of the count. */
  lemma BumpKeepsMatch(l: LfuStates.LfuState, items: map<Key, Resident>, key: Key, e: Resident)
    requires LfuStates.Bucketed(l) && Match(l.freq, items) && key in items
    requires items[key].accessCount >= 1 && e.accessCount == Inc32(items[key].accessCount)
    requires items[key].accessCount < TWO_TO_THE_32
    ensures Match(LfuStates.Incremented(l, key).freq, items[key := e]) <==> items[key].accessCount + 1 < TWO_TO_THE_32
  {
    LfuStates.IncrementKeepsBuckets(l, key);
    var freq := l.freq[key := Min(l.freq[key] + 1, LfuStates.MAX_FREQ)];
    assert key in items[key := e] && items[key := e][key] == e;
    if items[key].accessCount + 1 < TWO_TO_THE_32 {
      assert e.accessCount == items[key].accessCount + 1;
    } else {
      assert e.accessCount == 0 && freq[key] == LfuStates.MAX_FREQ;
    }
  }

  /** Exact accounts and, unless a Clock is installed, coherence: every other policy is coherent whatever the
      keys, and a rebuild makes it so. */
  ghost predicate Reliable(s: CacheState) {
    SafeCapacity(s.store.capacity) && Accounted(s.store) && (s.policy.ClockPolicy? || Sound(s))
  }

  lemma StepKeepsReliable(s: CacheState, op: Op)
    requires Reliable(s) && Possible(s, op)
    ensures Reliable(Step(s, op))
  {
    StepKeepsAccounts(s, op);
    match op {
      case SetPolicy(kind, listing) => SwitchRestoresCoherence(s, kind, listing);
      case Put(key, val, size) =>
        PutKeepsAccounts(s, key, val, size);
        if Sound(s) {
          PutIsSound(s, key, val, size);
        }
      case _ =>
        if Sound(s) {
          StepIsSound(s, op);
        }
    }
  }

  lemma EvictionFollowsCounts(s: CacheState, bound: nat)
    requires Reliable(s) && s.policy != NoPolicy && FollowsCounts(s) && CountsWithin(s, bound) && EvictedOne(s).1
    ensures Reliable(EvictedOne(s).0)
    ensures FollowsCounts(EvictedOne(s).0) && CountsWithin(EvictedOne(s).0, bound)
  {
    EvictionKeepsAccounts(s);
    if Sound(s) {
      EvictionIsSound(s);
      VictimContract(s.policy);
    }
  }

  lemma InsertKeepsMatch(l: LfuStates.LfuState, s: StoreState, key: Key, val: Value, size: int)
    requires LfuStates.Bucketed(l) && Match(l.freq, s.items) && l.freq.Keys == s.items.Keys
    requires key in s.items ==> 1 <= s.items[key].accessCount < TWO_TO_THE_32 - 1
    requires !Stores.Inserted(s, key, val, size).1.Refused?
    ensures Match(LfuStates.Inserted(l, key).freq, Stores.Inserted(s, key, val, size).0.items)
  {
    var e := Stores.Inserted(s, key, val, size).0.items[key];
    if key in s.items {
      BumpKeepsMatch(l, s.items, key, e);
    }
  }

  lemma InsertKeepsCountsWithin(s: CacheState, key: Key, val: Value, size: int, bound: nat)
    requires CountsWithin(s, bound) && bound + 1 < TWO_TO_THE_32
    requires !Stores.Inserted(s.store, key, val, size).1.Refused?
    ensures CountsWithin(Stored(s, key, val, size).0, bound + 1)
  {
    StoredAtOnce(s, key, val, size);
  }

  lemma CountOf(s: CacheState, key: Key, bound: nat)
    requires CountsWithin(s, bound)
    ensures key in s.store.items ==> 1 <= s.store.items[key].accessCount <= bound
  {
  }

  lemma InsertFollowsCounts(s: CacheState, key: Key, val: Value, size: int, bound: nat)
    requires Reliable(s) && FollowsCounts(s) && CountsWithin(s, bound) && bound + 1 < TWO_TO_THE_32
    requires !Stores.Inserted(s.store, key, val, size).1.Refused?
    ensures FollowsCounts(Stored(s, key, val, size).0) && CountsWithin(Stored(s, key, val, size).0, bound + 1)
  {
    hide Stored, Stores.Inserted, CountsWithin, Match;
    InsertKeepsCountsWithin(s, key, val, size, bound);
    StoredAtOnce(s, key, val, size);
    if s.policy.LfuPolicy? && s.policy.lfu.ageMax == 0 {
      CountOf(s, key, bound);
      InsertKeepsMatch(s.policy.lfu, s.store, key, val, size);
    }
  }

  lemma {:induction false} PutFollowsCounts(s: CacheState, key: Key, val: Value, size: int, bound: nat)
    requires Reliable(s) && FollowsCounts(s) && CountsWithin(s, bound) && bound + 1 < TWO_TO_THE_32
    ensures FollowsCounts(Stored(s, key, val, size).0) && CountsWithin(Stored(s, key, val, size).0, bound + 1)
    decreases |s.store.items|
  {
    var placed := Stores.Inserted(s.store, key, val, size).1;
    if !placed.Refused? {
      InsertFollowsCounts(s, key, val, size, bound);
    } else if placed.error == CapacityExceeded && s.policy != NoPolicy {
      if EvictedOne(s).1 {
        EvictionShrinks(s);
        EvictionFollowsCounts(s, bound);
        PutFollowsCounts(EvictedOne(s).0, key, val, size, bound);
      }
    }
  }

  /** An LFU that is installed has the period it was given, starts a new one, and holds every access count. */
  lemma SwitchFollowsCounts(s: CacheState, kind: Kind, listing: seq<Key>)
    requires Possible(s, SetPolicy(kind, listing))
    ensures FollowsCounts(Step(s, SetPolicy(kind, listing)))
    ensures var p := Step(s, SetPolicy(kind, listing)).policy;
            match kind
            case NoKind => p.NoPolicy?
            case LruKind => p.LruPolicy?
            case LfuKind(period) => p.LfuPolicy? && p.lfu.ageMax == period && p.lfu.ageCnt == 0 && Match(p.lfu.freq, s.store.items)
            case ClockKind => p.ClockPolicy?
  {
    ListingInItems(s, listing);
    if kind.LfuKind? {
      var entries := EntriesOf(s.store.items, listing);
      assert KeysIn(entries) == listing;
      LfuLaws.RebuildAdopts(LfuStates.NewState(kind.ageMax), entries);
      LfuLaws.InitialFreqsLookup(entries);
      forall k | k in s.store.items
        ensures exists i :: 0 <= i < |entries| && entries[i].0 == k && entries[i].1 == s.store.items[k].accessCount
      {
        assert k in Elems(listing);
        var i :| 0 <= i < |listing| && listing[i] == k;
        assert entries[i].0 == k;
      }
    }
  }

  lemma HitKeepsCountsWithin(s: CacheState, key: Key, visit: seq<nat>, bound: nat)
    requires CountsWithin(s, bound) && bound + 1 < TWO_TO_THE_32
    ensures CountsWithin(Got(s, key, visit).0, bound + 1)
  {
    if key in s.store.items {
      var e := Touched(s.store, key).items[key];
      assert Got(s, key, visit).0.store.items == s.store.items[key := e];
      assert e.accessCount == s.store.items[key].accessCount + 1;
      hide Got, Touched;
    }
  }

  lemma HitFollowsCounts(s: CacheState, key: Key, visit: seq<nat>, bound: nat)
    requires Reliable(s) && Possible(s, Get(key, visit))
    requires FollowsCounts(s) && CountsWithin(s, bound) && bound + 1 < TWO_TO_THE_32
    ensures FollowsCounts(Got(s, key, visit).0)
  {
    if key in s.store.items && s.policy.LfuPolicy? {
      if s.policy.lfu.ageMax == 0 {
        BumpKeepsMatch(s.policy.lfu, s.store.items, key, Touched(s.store, key).items[key]);
      } else {
        LfuLaws.AccessKeepsInv(s.policy.lfu, key, visit);
      }
      hide Match, LfuStates.Bucketed, LfuStates.Incremented;
    }
  }

  lemma StepFollowsCounts(s: CacheState, op: Op, bound: nat)
    requires Reliable(s) && Possible(s, op) && FollowsCounts(s) && CountsWithin(s, bound) && bound + 1 < TWO_TO_THE_32
    ensures FollowsCounts(Step(s, op)) && CountsWithin(Step(s, op), bound + 1)
  {
    match op {
      case Get(key, visit) =>
        HitFollowsCounts(s, key, visit, bound);
        HitKeepsCountsWithin(s, key, visit, bound);
      case Put(key, val, size) => PutFollowsCounts(s, key, val, size, bound);
      case Remove(key) =>
      case Clear =>
      case SetPolicy(kind, listing) => SwitchFollowsCounts(s, kind, listing);
    }
  }

  /** Across any interleaving of hits, replacements, evictions, removals and switches away and back, an
      installed LFU without decay holds min(access count, 2^16) for every resident key, so a rebuild
      recovers exactly what live tracking would hold. The run is too short to wrap a 32-bit count. */
  lemma {:induction false} FrequenciesFollowCounts(s: CacheState, ops: seq<Op>, bound: nat)
    requires Reliable(s) && PossibleRun(s, ops) && FollowsCounts(s) && CountsWithin(s, bound)
    requires bound + |ops| < TWO_TO_THE_32
    ensures FollowsCounts(Run(s, ops)) && CountsWithin(Run(s, ops), bound + |ops|)
    decreases |ops|
  {
    if ops != [] {
      StepFollowsCounts(s, ops[0], bound);
      StepKeepsReliable(s, ops[0]);
      FrequenciesFollowCounts(Step(s, ops[0]), ops[1..], bound + 1);
    }
  }

  /** A single hit keeps frequency and count in step exactly when the 32-bit count does not wrap. */
  lemma HitFollowsCountIff(s: CacheState, key: Key, visit: seq<nat>)
    requires Sound(s) && s.policy.LfuPolicy? && s.policy.lfu.ageMax == 0 && FollowsCounts(s)
    requires key in s.store.items && 1 <= s.store.items[key].accessCount < TWO_TO_THE_32
    ensures FollowsCounts(Got(s, key, visit).0) <==> s.store.items[key].accessCount < TWO_TO_THE_32 - 1
  {
    BumpKeepsMatch(s.policy.lfu, s.store.items, key, Touched(s.store, key).items[key]);
  }
}
