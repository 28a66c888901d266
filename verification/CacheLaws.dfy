/** Laws of single calls of the cache: coherence of store and policy, and what Put does. */
module CacheLaws {
  import opened Base
  import opened Stores
  import opened Policies
  import opened CacheStates
  import Collectors
  import LfuLaws

  // ---------- Every call keeps the cache sound ----------

  /** In a sound cache with a policy, an eviction frees an entry exactly when there is one to free. */
  lemma EvictionIsSound(s: CacheState)
    requires Sound(s) && s.policy != NoPolicy
    ensures Sound(EvictedOne(s).0)
    ensures EvictedOne(s).0.policy != NoPolicy && EvictedOne(s).0.policy.ClockPolicy? == s.policy.ClockPolicy?
    ensures EvictedOne(s).0.store.capacity == s.store.capacity
    ensures EvictedOne(s).1 <==> s.store.items != map[]
  {
    var (p, victim) := VictimOf(s.policy);
    VictimContract(s.policy);
    if victim.Some? {
      RemoveContract(p, victim.value);
      RemoveKeepsAccounts(s.store, victim.value);
      assert (s.store.items - {victim.value}).Keys == s.store.items.Keys - {victim.value};
    } else {
      assert s.store.items.Keys == {};
    }
  }

  lemma InsertIsSound(s: CacheState, key: Key, val: Value, size: int)
    requires Sound(s) && IsInt64(size)
    requires !Stores.Inserted(s.store, key, val, size).1.Refused?
    ensures Sound(Stored(s, key, val, size).0) <==> Accepts(s.policy, key)
  {
    InsertKeepsAccounts(s.store, key, val, size);
    if s.policy != NoPolicy {
      InsertContract(s.policy, key);
      assert Stores.Inserted(s.store, key, val, size).0.items.Keys == s.store.items.Keys + {key};
    }
  }

  /** A Put keeps the cache sound, unless it stores the empty key in a Clock cache: then it never does. */
  lemma {:induction false} PutIsSound(s: CacheState, key: Key, val: Value, size: int)
    requires Sound(s) && IsInt64(size)
    ensures Sound(Stored(s, key, val, size).0) <==> Accepts(s.policy, key) || Stored(s, key, val, size).1.Refused?
    decreases |s.store.items|
  {
    var placed := Stores.Inserted(s.store, key, val, size).1;
    if !placed.Refused? {
      InsertIsSound(s, key, val, size);
    } else if placed.error == CapacityExceeded && s.policy != NoPolicy {
      EvictionIsSound(s);
      if EvictedOne(s).1 {
        EvictionShrinks(s);
        PutIsSound(EvictedOne(s).0, key, val, size);
      }
    }
  }

  /** On a coherent cache every Put returns, of every key. */
  lemma {:induction false} CoherentPutReturns(s: CacheState, key: Key, val: Value, size: int)
    requires Sound(s) && IsInt64(size)
    ensures PutReturns(s, key, val, size)
    decreases |s.store.items|
  {
    var placed := Stores.Inserted(s.store, key, val, size).1;
    if !placed.Refused? {
      InsertAlwaysReturns(s.policy, key);
    } else if placed.error == CapacityExceeded && s.policy != NoPolicy {
      EvictionIsSound(s);
      if EvictedOne(s).1 {
        EvictionShrinks(s);
        CoherentPutReturns(EvictedOne(s).0, key, val, size);
      }
    }
  }

  /** Installing a policy touches no entry, byte count or counter. It makes policy and store agree from
      whatever state the policy was in before, unless a Clock takes over an entry with the empty key. */
  lemma SwitchRestoresCoherence(s: CacheState, kind: Kind, listing: seq<Key>)
    requires SafeCapacity(s.store.capacity) && Accounted(s.store)
    requires Possible(s, SetPolicy(kind, listing))
    ensures Sound(Step(s, SetPolicy(kind, listing))) <==> Acceptable(s, SetPolicy(kind, listing))
    ensures Step(s, SetPolicy(kind, listing)).store == s.store
    ensures Step(s, SetPolicy(kind, listing)).counters == s.counters
  {
    ListingInItems(s, listing);
    var entries := EntriesOf(s.store.items, listing);
    assert KeysIn(entries) == listing;
    if kind != NoKind {
      assert "" in listing <==> "" in Elems(listing);
      RebuildContract(kind, entries);
    }
  }

  /** Every call that meets Clock's restriction on the empty key keeps the cache sound. */
  lemma StepIsSound(s: CacheState, op: Op)
    requires Sound(s) && Possible(s, op) && Acceptable(s, op)
    ensures Sound(Step(s, op))
  {
    match op {
      case Get(key, visit) =>
        TouchKeepsAccounts(s.store, key);
        if key in s.store.items {
          AccessContract(s.policy, key, visit);
          assert Touched(s.store, key).items.Keys == s.store.items.Keys;
        }
      case Put(key, val, size) => PutIsSound(s, key, val, size);
      case Remove(key) =>
        RemoveContract(s.policy, key);
        RemoveKeepsAccounts(s.store, key);
        assert (s.store.items - {key}).Keys == s.store.items.Keys - {key};
      case Clear =>
      case SetPolicy(kind, listing) => SwitchRestoresCoherence(s, kind, listing);
    }
  }

  /** A new cache is sound exactly when the policy it is given tracks nothing: it is not rebuilt. */
  lemma NewCacheSoundIff(capacity: int, p: Policy)
    requires SafeCapacity(capacity) && Policies.Inv(p)
    ensures Sound(CacheState(Stores.NewState(capacity), p, Collectors.ZERO)) <==> Tracked(p) == {}
  {
    assert p == NoPolicy ==> Tracked(p) == {};
    assert Sizes(Stores.NewState(capacity).items) == map[];
    assert KeyLengths(Stores.NewState(capacity).items) == map[];
  }

  lemma NewCacheIsSound(capacity: int, kind: Kind)
    requires SafeCapacity(capacity)
    ensures Sound(NewCache(capacity, kind))
  {
  }

  /** Coherence and exact accounting over every run of calls, with any policies and any switches. */
  lemma {:induction false} RunIsSound(s: CacheState, ops: seq<Op>)
    requires Sound(s) && ValidRun(s, ops)
    ensures Sound(Run(s, ops))
    decreases |ops|
  {
    if ops != [] {
      StepIsSound(s, ops[0]);
      RunIsSound(Step(s, ops[0]), ops[1..]);
    }
  }

  // ---------- What single calls return and take out ----------

  /** Remove says whether the key was present. It takes out just that key, from the store and from a policy with
      an intact structure, and changes nothing at all when the key is missing. */
  lemma RemoveTakesOut(s: CacheState, key: Key)
    ensures Deleted(s, key).1 <==> key in s.store.items
    ensures key !in s.store.items ==> Deleted(s, key).0 == s
    ensures Deleted(s, key).0.store.items == s.store.items - {key}
    ensures Deleted(s, key).0.counters == s.counters
    ensures key in s.store.items && Policies.Inv(s.policy) ==>
              Tracked(Deleted(s, key).0.policy) == Tracked(s.policy) - {key}
  {
    if key !in s.store.items {
      assert s.store.items - {key} == s.store.items;
    } else if Policies.Inv(s.policy) {
      RemoveContract(s.policy, key);
    }
  }

  /** A Get hits exactly the resident keys, and returns their value; it moves no object in or out and changes no
      value or size. A hit counts one access of the key. */
  lemma GetReturnsResident(s: CacheState, key: Key, visit: seq<nat>)
    ensures Got(s, key, visit).1 == if key in s.store.items then Some(s.store.items[key].value) else None
    ensures key !in s.store.items ==> Got(s, key, visit).0 == s.(counters := Got(s, key, visit).0.counters)
    ensures key in s.store.items ==>
              var e := s.store.items[key];
              Got(s, key, visit).0.store ==
                s.store.(items := s.store.items[key := Resident(e.value, e.size, (e.accessCount + 1) % TWO_TO_THE_32)])
  {
  }

  /** What was just stored is what a Get returns. */
  lemma GetReturnsWhatWasPut(s: CacheState, key: Key, val: Value, size: int, visit: seq<nat>)
    requires Sound(s) && IsInt64(size) && !Stored(s, key, val, size).1.Refused?
    ensures Got(Stored(s, key, val, size).0, key, visit).1 == Some(val)
  {
    PutSucceedsIff(s, key, val, size);
    hide Stored, Sound;
  }

  /** An eviction takes the policy's victim out of the policy and, if the store holds it, out of the store, which
      is when it counts. It touches no other object. */
  lemma EvictionTakesVictim(s: CacheState)
    requires Policies.Inv(s.policy)
    ensures var victim, t := VictimOf(s.policy).1, EvictedOne(s).0;
            && (EvictedOne(s).1 <==> victim.Some? && victim.value in s.store.items)
            && Tracked(t.policy) == Tracked(s.policy) - (if victim.Some? then {victim.value} else {})
            && t.store.items == s.store.items - (if victim.Some? then {victim.value} else {})
            && t.counters == if EvictedOne(s).1 then
                               s.counters.(evictions := s.counters.evictions + 1,
                                           evictedBytes := s.counters.evictedBytes + s.store.items[victim.value].size)
                             else s.counters
  {
    var (p, victim) := VictimOf(s.policy);
    VictimContract(s.policy);
    if victim.Some? {
      RemoveContract(p, victim.value);
    } else {
      assert s.store.items - {} == s.store.items;
    }
  }

  /** Clear leaves a cache as it was when it was new, with the same capacity and a policy of the same kind, but
      for its counters. */
  lemma ClearStartsAnew(s: CacheState)
    ensures var t := Emptied(s);
            && t.counters == s.counters && t.store == Stores.NewState(s.store.capacity)
            && Tracked(t.policy) == {} && Policies.Inv(t.policy)
            && match s.policy
               case NoPolicy => t.policy.NoPolicy?
               case LruPolicy(_) => t.policy.LruPolicy?
               case LfuPolicy(l) => t.policy.LfuPolicy? && t.policy.lfu.ageMax == l.ageMax && t.policy.lfu.ageCnt == 0
               case ClockPolicy(_) => t.policy.ClockPolicy? && t.policy.clock.hand == 0 && t.policy.clock.slots == []
  {
  }

  // ---------- Accounts, whatever the policy is like ----------

  lemma EvictionKeepsAccounts(s: CacheState)
    requires SafeCapacity(s.store.capacity) && Accounted(s.store)
    ensures Accounted(EvictedOne(s).0.store) && EvictedOne(s).0.store.capacity == s.store.capacity
    ensures EvictedOne(s).0.policy.ClockPolicy? == s.policy.ClockPolicy?
  {
    var victim := VictimOf(s.policy).1;
    if victim.Some? {
      RemoveKeepsAccounts(s.store, victim.value);
    }
  }

  lemma {:induction false} PutKeepsAccounts(s: CacheState, key: Key, val: Value, size: int)
    requires SafeCapacity(s.store.capacity) && Accounted(s.store) && IsInt64(size)
    ensures Accounted(Stored(s, key, val, size).0.store)
    ensures Stored(s, key, val, size).0.store.capacity == s.store.capacity
    ensures Stored(s, key, val, size).0.policy.ClockPolicy? == s.policy.ClockPolicy?
    decreases |s.store.items|
  {
    InsertKeepsAccounts(s.store, key, val, size);
    if Stores.Inserted(s.store, key, val, size).1 == Refused(CapacityExceeded) && s.policy != NoPolicy {
      EvictionKeepsAccounts(s);
      if EvictedOne(s).1 {
        EvictionShrinks(s);
        PutKeepsAccounts(EvictedOne(s).0, key, val, size);
      }
    }
  }

  lemma StepKeepsAccounts(s: CacheState, op: Op)
    requires SafeCapacity(s.store.capacity) && Accounted(s.store) && Possible(s, op)
    ensures Accounted(Step(s, op).store) && Step(s, op).store.capacity == s.store.capacity
  {
    match op {
      case Get(key, _) => TouchKeepsAccounts(s.store, key);
      case Put(key, val, size) => PutKeepsAccounts(s, key, val, size);
      case Remove(key) => RemoveKeepsAccounts(s.store, key);
      case Clear =>
      case SetPolicy(_, _) =>
    }
  }

  /** The accounts stay exact over every run of calls, of every key, coherent or not. */
  lemma {:induction false} RunKeepsAccounts(s: CacheState, ops: seq<Op>)
    requires SafeCapacity(s.store.capacity) && Accounted(s.store) && PossibleRun(s, ops)
    ensures Accounted(Run(s, ops).store) && Run(s, ops).store.capacity == s.store.capacity
    decreases |ops|
  {
    if ops != [] {
      StepKeepsAccounts(s, ops[0]);
      RunKeepsAccounts(Step(s, ops[0]), ops[1..]);
    }
  }

  // ---------- Put ----------

  /** The object fits now, in exact arithmetic, counting what replacing its old version frees. */
  predicate Fits(s: StoreState, key: Key, size: int) {
    s.bytes - (if key in s.items then s.items[key].size else 0) + size <= s.capacity
  }

  /** The cache after `n` evictions. */
  ghost function Evicted(s: CacheState, n: nat): CacheState
    decreases n
  {
    if n == 0 then s else Evicted(EvictedOne(s).0, n - 1)
  }

  /** Which evictions a Put makes: as many as bring it to the first state in which the object fits. */
  ghost predicate ShortestRun(s: CacheState, key: Key, size: int, n: nat) {
    && Fits(Evicted(s, n).store, key, size)
    && forall m :: 0 <= m < n ==> !Fits(Evicted(s, m).store, key, size)
  }

  lemma EmptyFits(s: CacheState, key: Key, size: int)
    requires Sound(s) && 0 <= size <= s.store.capacity && s.store.items == map[]
    ensures Fits(s.store, key, size)
  {
    assert Sizes(s.store.items) == map[];
  }

  lemma OneMoreEviction(s: CacheState, key: Key, size: int, n: nat)
    requires !Fits(s.store, key, size) && ShortestRun(EvictedOne(s).0, key, size, n)
    ensures ShortestRun(s, key, size, n + 1) && Evicted(s, n + 1) == Evicted(EvictedOne(s).0, n)
  {
    forall i | 0 <= i < n + 1
      ensures !Fits(Evicted(s, i).store, key, size)
    {
      if i > 0 {
        assert Evicted(s, i) == Evicted(EvictedOne(s).0, i - 1);
      }
    }
  }

  /** The cache once the object has been inserted without any further eviction. */
  ghost function InsertedInto(t: CacheState, key: Key, val: Value, size: int): (CacheState, Placement) {
    var (store, placed) := Stores.Inserted(t.store, key, val, size);
    (CacheState(store, Policies.Inserted(t.policy, key), Collectors.Fetched(t.counters, size)), placed)
  }

  /** With a policy installed, a Put of any size from 0 to the capacity succeeds: it evicts exactly the
      shortest run of successive victims after which the object fits, then inserts. */
  lemma {:induction false} PutEvictsShortestRun(s: CacheState, key: Key, val: Value, size: int) returns (n: nat)
    requires Sound(s) && s.policy != NoPolicy && 0 <= size <= s.store.capacity
    ensures ShortestRun(s, key, size, n)
    ensures Sound(Evicted(s, n)) && |Evicted(s, n).store.items| == |s.store.items| - n
    ensures Stored(s, key, val, size) == InsertedInto(Evicted(s, n), key, val, size)
    ensures !Stored(s, key, val, size).1.Refused?
    decreases |s.store.items|
  {
    InsertKeepsAccounts(s.store, key, val, size);
    if Fits(s.store, key, size) {
      n := 0;
      assert Evicted(s, 0) == s;
    } else {
      if s.store.items == map[] {
        EmptyFits(s, key, size);
      }
      EvictionIsSound(s);
      EvictionShrinks(s);
      var t := EvictedOne(s).0;
      assert Stored(s, key, val, size) == Stored(t, key, val, size);
      n := PutEvictsShortestRun(t, key, val, size);
      OneMoreEviction(s, key, size, n);
      n := n + 1;
    }
  }

  /** The object is in the store, with the value and size given. */
  predicate Holds(s: StoreState, key: Key, val: Value, size: int) {
    key in s.items && s.items[key].value == val && s.items[key].size == size
  }

  lemma PutWithPolicy(s: CacheState, key: Key, val: Value, size: int)
    requires Sound(s) && s.policy != NoPolicy && 0 <= size <= s.store.capacity
    ensures !Stored(s, key, val, size).1.Refused? && Holds(Stored(s, key, val, size).0.store, key, val, size)
  {
    hide Sound, ShortestRun, Policies.Inserted, Stored, Evicted;
    var n := PutEvictsShortestRun(s, key, val, size);
  }

  lemma PutAtOnce(s: CacheState, key: Key, val: Value, size: int)
    requires Sound(s) && IsInt64(size)
    requires s.policy == NoPolicy || size < 0 || size > s.store.capacity
    ensures var (t, placed) := Stored(s, key, val, size);
            && (placed.Refused? ==> t == s)
            && (!placed.Refused? <==> 0 <= size <= s.store.capacity && Fits(s.store, key, size))
            && (placed == Refused(InvalidSize) <==> size < 0)
            && (placed == Refused(ObjectTooLarge) <==> 0 <= size && size > s.store.capacity)
            && (!placed.Refused? ==> Holds(t.store, key, val, size))
  {
    InsertKeepsAccounts(s.store, key, val, size);
    hide Accounted, Policies.Inserted;
  }

  /** A Put returns nil exactly for the sizes from 0 to the capacity, unless no policy is installed and
      the object does not fit; a Put that fails changes nothing at all. */
  lemma PutSucceedsIff(s: CacheState, key: Key, val: Value, size: int)
    requires Sound(s) && IsInt64(size)
    ensures var (t, placed) := Stored(s, key, val, size);
            && (!placed.Refused? <==> 0 <= size <= s.store.capacity && (s.policy != NoPolicy || Fits(s.store, key, size)))
            && (placed.Refused? ==> t == s)
            && (placed == Refused(InvalidSize) <==> size < 0)
            && (placed == Refused(ObjectTooLarge) <==> size > s.store.capacity)
            && (!placed.Refused? ==> Holds(t.store, key, val, size))
  {
    assert s.store.capacity >= 0;
    hide Sound, Fits, Stored, Holds;
    if s.policy != NoPolicy && 0 <= size <= s.store.capacity {
      PutWithPolicy(s, key, val, size);
    } else {
      PutAtOnce(s, key, val, size);
    }
  }

  /** Whatever state the policy is in: a Put fails for a negative size, for a size above the capacity, or because
      the object still does not fit when it can evict no more; and in that order. */
  lemma {:induction false} PutErrors(s: CacheState, key: Key, val: Value, size: int)
    requires SafeCapacity(s.store.capacity) && Accounted(s.store) && IsInt64(size)
    ensures var (t, placed) := Stored(s, key, val, size);
            && (placed == Refused(InvalidSize) <==> size < 0)
            && (placed == Refused(ObjectTooLarge) <==> size > s.store.capacity)
            && (placed.Refused? && 0 <= size <= s.store.capacity ==>
                  placed.error == CapacityExceeded && !Fits(t.store, key, size))
            && (size < 0 || size > s.store.capacity ==> t == s)
            && t.store.items.Keys <= s.store.items.Keys + {key}
    decreases |s.store.items|
  {
    InsertKeepsAccounts(s.store, key, val, size);
    if Stores.Inserted(s.store, key, val, size).1 == Refused(CapacityExceeded) && s.policy != NoPolicy {
      EvictionKeepsAccounts(s);
      if EvictedOne(s).1 {
        EvictionShrinks(s);
        PutErrors(EvictedOne(s).0, key, val, size);
      }
    }
  }

  /** The object does not fit after fewer than `n` evictions, each of which has freed an entry. */
  ghost predicate MustEvict(s: CacheState, key: Key, size: int, n: nat) {
    forall m :: 0 <= m < n ==> StillTooFull(s, key, size, m)
  }

  ghost predicate StillTooFull(s: CacheState, key: Key, size: int, m: nat) {
    !Fits(Evicted(s, m).store, key, size) && (m > 0 ==> Frees(s, m - 1))
  }

  /** Whether the eviction after the first `m` frees an entry. */
  ghost predicate Frees(s: CacheState, m: nat) {
    EvictedOne(Evicted(s, m)).1
  }

  lemma AfterFirst(s: CacheState, m: nat)
    ensures m > 0 ==> Evicted(s, m) == Evicted(EvictedOne(s).0, m - 1)
    ensures m > 0 ==> (Frees(s, m) <==> Frees(EvictedOne(s).0, m - 1))
    ensures Evicted(s, 0) == s && (Frees(s, 0) <==> EvictedOne(s).1)
  {
  }

  lemma MustEvictOneMore(s: CacheState, key: Key, size: int, n: nat)
    requires !Fits(s.store, key, size) && EvictedOne(s).1 && MustEvict(EvictedOne(s).0, key, size, n)
    ensures MustEvict(s, key, size, n + 1) && Evicted(s, n + 1) == Evicted(EvictedOne(s).0, n)
    ensures Frees(s, n) <==> (n > 0 ==> Frees(EvictedOne(s).0, n - 1))
  {
    hide Fits, EvictedOne, Evicted, Frees;
    AfterFirst(s, n + 1);
    AfterFirst(s, n);
    forall m | 0 <= m < n + 1
      ensures StillTooFull(s, key, size, m)
    {
      AfterFirst(s, m);
      if m > 0 {
        AfterFirst(s, m - 1);
        assert StillTooFull(EvictedOne(s).0, key, size, m - 1);
      }
    }
  }

  /** A Put that evicts until the object fits, and then inserts it, or until an eviction frees nothing, and then
      fails as that eviction leaves the cache. */
  ghost predicate EvictsWhileItCan(s: CacheState, key: Key, val: Value, size: int, n: nat) {
    && MustEvict(s, key, size, n)
    && if Stored(s, key, val, size).1.Refused?
       then n > 0 && !Frees(s, n - 1) && Stored(s, key, val, size) == (Evicted(s, n), Refused(CapacityExceeded))
       else (n > 0 ==> Frees(s, n - 1)) && Fits(Evicted(s, n).store, key, size)
            && Stored(s, key, val, size) == InsertedInto(Evicted(s, n), key, val, size)
  }

  lemma FitsAtOnce(s: CacheState, key: Key, val: Value, size: int)
    requires SafeCapacity(s.store.capacity) && Accounted(s.store) && 0 <= size <= s.store.capacity
    requires Fits(s.store, key, size)
    ensures EvictsWhileItCan(s, key, val, size, 0)
  {
    InsertKeepsAccounts(s.store, key, val, size);
    assert Evicted(s, 0) == s;
    hide Accounted, EvictedOne, Policies.Inserted;
  }

  lemma RefusedIfNoFit(s: CacheState, key: Key, val: Value, size: int)
    requires SafeCapacity(s.store.capacity) && Accounted(s.store) && 0 <= size <= s.store.capacity
    requires !Fits(s.store, key, size)
    ensures Stores.Inserted(s.store, key, val, size).1 == Refused(CapacityExceeded)
  {
    InsertKeepsAccounts(s.store, key, val, size);
  }

  lemma FreesNothing(s: CacheState, key: Key, val: Value, size: int)
    requires Stores.Inserted(s.store, key, val, size).1 == Refused(CapacityExceeded) && s.policy != NoPolicy
    requires !Fits(s.store, key, size) && !EvictedOne(s).1
    ensures EvictsWhileItCan(s, key, val, size, 1)
  {
    hide Fits, Stores.Inserted, EvictedOne;
    assert Evicted(s, 0) == s && Evicted(s, 1) == Evicted(EvictedOne(s).0, 0);
  }

  lemma EvictsFirst(s: CacheState, key: Key, val: Value, size: int, n: nat)
    requires Stores.Inserted(s.store, key, val, size).1 == Refused(CapacityExceeded) && s.policy != NoPolicy
    requires !Fits(s.store, key, size) && EvictedOne(s).1
    requires EvictsWhileItCan(EvictedOne(s).0, key, val, size, n)
    ensures EvictsWhileItCan(s, key, val, size, n + 1)
  {
    hide Fits, Stores.Inserted, EvictedOne, MustEvict, Frees, Evicted, InsertedInto;
    assert Stored(s, key, val, size) == Stored(EvictedOne(s).0, key, val, size);
    MustEvictOneMore(s, key, size, n);
  }

  /** Whatever state the policy is in, a Put of a size from 0 to the capacity evicts while it must and can. */
  lemma {:induction false} PutEvictsWhileItCan(s: CacheState, key: Key, val: Value, size: int) returns (n: nat)
    requires SafeCapacity(s.store.capacity) && Accounted(s.store) && s.policy != NoPolicy
    requires 0 <= size <= s.store.capacity
    ensures EvictsWhileItCan(s, key, val, size, n)
    decreases |s.store.items|
  {
    hide Fits, Stores.Inserted, EvictedOne, EvictsWhileItCan, Accounted;
    if Fits(s.store, key, size) {
      n := 0;
      FitsAtOnce(s, key, val, size);
    } else {
      RefusedIfNoFit(s, key, val, size);
      if EvictedOne(s).1 {
        EvictionKeepsAccounts(s);
        EvictionKeepsPolicy(s);
        EvictionShrinks(s);
        n := PutEvictsWhileItCan(EvictedOne(s).0, key, val, size);
        EvictsFirst(s, key, val, size, n);
        n := n + 1;
      } else {
        n := 1;
        FreesNothing(s, key, val, size);
      }
    }
  }

  lemma EvictionKeepsPolicy(s: CacheState)
    requires s.policy != NoPolicy
    ensures EvictedOne(s).0.policy != NoPolicy
  {
  }

  // ---------- The empty key under Clock ----------

  /** A Put that a sound Clock cache takes keeps it sound exactly when the key is not the empty string. */
  lemma ClockSoundIffKeyNonEmpty(s: CacheState, key: Key, val: Value, size: int)
    requires Sound(s) && IsInt64(size) && s.policy.ClockPolicy? && !Stored(s, key, val, size).1.Refused?
    ensures Sound(Stored(s, key, val, size).0) <==> key != ""
  {
    PutIsSound(s, key, val, size);
  }
}
