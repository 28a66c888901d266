/** What single calls of the cache do to the order in which its objects will be evicted. */
module EvictionOrders {
  import opened Base
  import opened Stores
  import opened Policies
  import opened CacheStates
  import opened CacheLaws
  import Lru
  import ClockStates
  import ClockRuns
  import ClockOrders

  /** The next `n` victims of a policy, each removed before the next one is asked for. */
  ghost function Victims(p: Policy, n: nat): seq<Key>
    decreases n
  {
    var (t, victim) := VictimOf(p);
    if n == 0 || victim.None? then [] else [victim.value] + Victims(Policies.Removed(t, victim.value), n - 1)
  }

  lemma {:induction false} VictimsOfLru(order: seq<Key>, n: nat)
    requires NoDup(order)
    ensures Victims(LruPolicy(order), n) == Take(Reverse(order), n)
    decreases n
  {
    if order != [] && n > 0 {
      WithoutLast(order);
      VictimsOfLru(order[..|order| - 1], n - 1);
      TakeCons(order[|order| - 1], Reverse(order[..|order| - 1]), n);
    }
  }

  function Take(keys: seq<Key>, n: nat): seq<Key> {
    if n < |keys| then keys[..n] else keys
  }

  lemma TakeIsPrefix(keys: seq<Key>, n: nat)
    ensures |Take(keys, n)| == Min(n, |keys|) && forall i :: 0 <= i < |Take(keys, n)| ==> Take(keys, n)[i] == keys[i]
  {
  }

  lemma TakeCons(key: Key, rest: seq<Key>, n: nat)
    requires n > 0
    ensures Take([key] + rest, n) == [key] + Take(rest, n - 1)
  {
  }

  lemma {:induction false} VictimsOfClock(s: ClockStates.ClockState, n: nat)
    ensures Victims(ClockPolicy(s), n) == ClockRuns.VictimRounds(s, n)
    decreases n
  {
    var (t, victim) := ClockStates.VictimOf(s);
    if n > 0 && victim.Some? {
      VictimsOfClock(ClockStates.Removed(t, victim.value), n - 1);
    }
  }

  /** One more eviction takes one more victim. */
  lemma OneVictimMore(s: CacheState, n: nat)
    requires Sound(s) && s.policy != NoPolicy && n > 0
    ensures Sound(EvictedOne(s).0) && EvictedOne(s).0.policy != NoPolicy
    ensures Evicted(s, n) == Evicted(EvictedOne(s).0, n - 1)
    ensures Elems(Victims(s.policy, n)) ==
              if s.store.items == map[] then {}
              else Elems(Victims(EvictedOne(s).0.policy, n - 1)) + (s.store.items.Keys - EvictedOne(s).0.store.items.Keys)
    ensures EvictedOne(s).0.store.items == s.store.items - (s.store.items.Keys - EvictedOne(s).0.store.items.Keys)
  {
    EvictionIsSound(s);
    VictimContract(s.policy);
    var t, v := EvictedOne(s).0, VictimOf(s.policy).1;
    hide Sound, Stores.Removed, Policies.Removed, Evicted;
    if s.store.items != map[] {
      TakenOut(s);
      var rest := Victims(t.policy, n - 1);
      assert Victims(s.policy, n) == [v.value] + rest;
      assert Elems([v.value] + rest) == {v.value} + Elems(rest);
    } else {
      NothingToEvict(s, n);
    }
  }

  lemma TakenOut(s: CacheState)
    requires Sound(s) && s.policy != NoPolicy && s.store.items != map[]
    ensures VictimOf(s.policy).1.Some?
    ensures EvictedOne(s).0.policy == Policies.Removed(VictimOf(s.policy).0, VictimOf(s.policy).1.value)
    ensures EvictedOne(s).0.store.items == s.store.items - {VictimOf(s.policy).1.value}
    ensures s.store.items.Keys - EvictedOne(s).0.store.items.Keys == {VictimOf(s.policy).1.value}
  {
    VictimContract(s.policy);
    hide VictimOf, Accounted;
    assert s.store.items.Keys != {};
  }

  lemma NothingToEvict(s: CacheState, n: nat)
    requires Sound(s) && s.policy != NoPolicy && s.store.items == map[]
    ensures Victims(s.policy, n) == [] && EvictedOne(s).0.store.items == map[]
  {
    VictimContract(s.policy);
    assert Tracked(s.policy) == {};
  }

  /** Evictions take the victims, and nothing else. */
  lemma {:induction false} EvictionsTakeVictims(s: CacheState, n: nat)
    requires Sound(s) && s.policy != NoPolicy
    ensures Sound(Evicted(s, n)) && Evicted(s, n).policy != NoPolicy
    ensures Evicted(s, n).store.items == s.store.items - Elems(Victims(s.policy, n))
    decreases n
  {
    hide *;
    if n == 0 {
      NoEvictions(s);
    } else {
      OneVictimMore(s, n);
      var t := EvictedOne(s).0;
      EvictionsTakeVictims(t, n - 1);
      TakingInTurn(s.store.items, s.store.items.Keys - t.store.items.Keys, Elems(Victims(t.policy, n - 1)));
    }
  }

  lemma NoEvictions(s: CacheState)
    ensures Evicted(s, 0) == s && Victims(s.policy, 0) == []
    ensures s.store.items - Elems(Victims(s.policy, 0)) == s.store.items
  {
  }

  lemma TakingInTurn(items: map<Key, Resident>, taken: set<Key>, more: set<Key>)
    ensures items - taken - more == items - (more + taken)
    ensures items == map[] ==> items - taken - more == items - {}
  {
  }

  lemma OutlivesUnlessVictim(s: CacheState, key: Key, n: nat)
    requires Sound(s) && s.policy != NoPolicy && key in s.store.items
    ensures key in Evicted(s, n).store.items <==> key !in Victims(s.policy, n)
  {
    EvictionsTakeVictims(s, n);
  }

  // ---------- LRU ----------

  lemma FirstOutlivesOthers(order: seq<Key>, n: nat)
    requires NoDup(order) && order != []
    ensures order[0] in Take(Reverse(order), n) <==> n >= |order|
  {
    hide Reverse, Take;
    var r := Reverse(order);
    TakeIsPrefix(r, n);
    if n < |order| {
      forall i | 0 <= i < n
        ensures Take(r, n)[i] != order[0]
      {
        assert r[i] == order[|order| - 1 - i];
      }
    } else {
      assert r[|order| - 1] == order[0];
    }
  }

  lemma OrderCountsItems(s: CacheState)
    requires Sound(s) && s.policy.LruPolicy?
    ensures NoDup(s.policy.order) && |s.policy.order| == |s.store.items|
    ensures forall k :: k in s.policy.order <==> k in s.store.items
  {
    ElemsCard(s.policy.order);
    assert forall k :: k in s.policy.order <==> k in Elems(s.policy.order);
  }

  /** An object that has just been used outlives all others. */
  lemma LruHitOutlivesOthers(s: CacheState, key: Key, visit: seq<nat>, n: nat)
    requires Sound(s) && s.policy.LruPolicy? && key in s.store.items
    ensures key in Evicted(Got(s, key, visit).0, n).store.items <==> n < |s.store.items|
  {
    var t := Got(s, key, visit).0;
    StepIsSound(s, Get(key, visit));
    GetReturnsResident(s, key, visit);
    OrderCountsItems(s);
    OrderCountsItems(t);
    assert t.store.items.Keys == s.store.items.Keys;
    assert |t.store.items.Keys| == |s.store.items.Keys|;
    Lru.AccessMakesMostRecent(s.policy.order, key);
    assert t.policy.order[0] == key;
    hide Sound, Got, EvictedOne;
    OutlivesUnlessVictim(t, key, n);
    VictimsOfLru(t.policy.order, n);
    FirstOutlivesOthers(t.policy.order, n);
  }

  lemma LruEvictsLast(s: CacheState)
    requires Sound(s) && s.policy.LruPolicy? && s.policy.order != []
    ensures EvictedOne(s).1 && Sound(EvictedOne(s).0)
    ensures EvictedOne(s).0.policy == LruPolicy(s.policy.order[..|s.policy.order| - 1])
    ensures |EvictedOne(s).0.store.items| == |s.store.items| - 1
  {
    EvictionIsSound(s);
    OrderCountsItems(s);
    assert s.policy.order[0] in s.store.items;
    EvictionShrinks(s);
    WithoutLast(s.policy.order);
  }

  lemma OrderLength(s: CacheState)
    requires Sound(s) && s.policy.LruPolicy?
    ensures |s.policy.order| == |s.store.items|
  {
    OrderCountsItems(s);
  }

  lemma ShorterPrefix(order: seq<Key>, n: nat)
    requires 0 < n <= |order|
    ensures order[..|order| - 1][..|order| - n] == order[..|order| - n]
  {
  }

  lemma {:induction false} LruEvictsTail(s: CacheState, n: nat)
    requires Sound(s) && s.policy.LruPolicy? && n <= |s.store.items|
    ensures |s.policy.order| == |s.store.items|
    ensures Evicted(s, n).policy == LruPolicy(s.policy.order[..|s.policy.order| - n])
    decreases n
  {
    hide *;
    OrderLength(s);
    if n == 0 {
      NoEvictions(s);
    } else {
      LruEvictsLast(s);
      LruEvictsTail(EvictedOne(s).0, n - 1);
      ShorterPrefix(s.policy.order, n);
      EvictedFirst(s, n);
    }
  }

  lemma EvictedFirst(s: CacheState, n: nat)
    requires n > 0
    ensures Evicted(s, n) == Evicted(EvictedOne(s).0, n - 1)
  {
  }

  /** A Put under LRU drops the tail of the recency order, as far as room is needed. If the object is then still
      resident it keeps its place, since a replacement is not a use; otherwise it becomes the most recent one. */
  lemma LruPutOrder(s: CacheState, key: Key, val: Value, size: int) returns (n: nat)
    requires Sound(s) && s.policy.LruPolicy? && 0 <= size <= s.store.capacity
    ensures ShortestRun(s, key, size, n) && n <= |s.policy.order|
    ensures var rest := s.policy.order[..|s.policy.order| - n];
            Stored(s, key, val, size).0.policy == LruPolicy(if key in rest then rest else [key] + rest)
  {
    n := PutEvictsShortestRun(s, key, val, size);
    LruEvictsTail(s, n);
    hide Sound, Evicted, ShortestRun, Stored, Stores.Inserted;
    Lru.InsertKeepsPlaces(s.policy.order[..|s.policy.order| - n], key);
  }

  /** A replacement that fits leaves the recency order, and so the next victim, as it was. */
  lemma LruReplacementIsNoUse(s: CacheState, key: Key, val: Value, size: int)
    requires Sound(s) && s.policy.LruPolicy? && 0 <= size <= s.store.capacity
    requires key in s.store.items && Fits(s.store, key, size)
    ensures Stored(s, key, val, size).0.policy == s.policy
    ensures VictimOf(Stored(s, key, val, size).0.policy) == VictimOf(s.policy)
  {
    OrderCountsItems(s);
    var n := LruPutOrder(s, key, val, size);
    assert Evicted(s, 0) == s && n == 0;
    var order := s.policy.order;
    assert order[..|order|] == order;
  }

  // ---------- Clock ----------

  lemma ClockTracksItems(s: CacheState)
    requires Sound(s) && s.policy.ClockPolicy?
    ensures ClockStates.Ring(s.policy.clock) && s.policy.clock.index.Keys == s.store.items.Keys
    ensures |s.policy.clock.index| == |s.store.items|
  {
    assert |s.policy.clock.index.Keys| == |s.store.items.Keys|;
  }

  /** An object that has just been used outlives every object whose reference bit is not set. */
  lemma ClockHitOutlivesUnused(s: CacheState, key: Key, visit: seq<nat>, n: nat)
    requires Sound(s) && s.policy.ClockPolicy? && key in s.store.items
    requires n <= |ClockOrders.ColdKeys(s.policy.clock) - {key}|
    ensures key in Evicted(Got(s, key, visit).0, n).store.items
  {
    var t := Got(s, key, visit).0;
    ClockTracksItems(s);
    StepIsSound(s, Get(key, visit));
    GetReturnsResident(s, key, visit);
    assert key in t.store.items;
    assert t.policy == ClockPolicy(ClockStates.Marked(s.policy.clock, key));
    hide Sound, Got, EvictedOne, ClockStates.Marked, ClockStates.Ring;
    OutlivesUnlessVictim(t, key, n);
    VictimsOfClock(t.policy.clock, n);
    ClockOrders.AccessDefersEviction(s.policy.clock, key, n);
  }

  /** An object that has just been added outlives all objects that were there. */
  lemma ClockNewOutlivesOthers(s: CacheState, key: Key, val: Value, size: int, n: nat)
    requires Sound(s) && s.policy.ClockPolicy? && key !in s.store.items && key != ""
    requires 0 <= size <= s.store.capacity && Fits(s.store, key, size)
    ensures key in Evicted(Stored(s, key, val, size).0, n).store.items <==> n <= |s.store.items|
  {
    var t := Stored(s, key, val, size).0;
    ClockTracksItems(s);
    InsertKeepsAccounts(s.store, key, val, size);
    PutIsSound(s, key, val, size);
    assert key in t.store.items && t.policy == ClockPolicy(ClockStates.Inserted(s.policy.clock, key));
    hide Sound, Stored, EvictedOne, ClockStates.Inserted, ClockStates.Ring;
    OutlivesUnlessVictim(t, key, n);
    VictimsOfClock(t.policy.clock, n);
    ClockOrders.NewKeyIsEvictedLast(s.policy.clock, key, n);
  }

  // ---------- Switches ----------

  lemma RebuiltVictims(kind: Kind, entries: seq<(Key, nat)>, n: nat)
    requires NoDup(KeysIn(entries)) && (kind == LruKind || (kind == ClockKind && "" !in KeysIn(entries)))
    ensures Victims(Rebuilt(kind, entries), n) == Take(KeysIn(entries), n)
  {
    var keys := KeysIn(entries);
    if kind == LruKind {
      ReverseListsSame(keys);
      VictimsOfLru(Reverse(keys), n);
      Lru.ReverseTwice(keys);
    } else {
      VictimsOfClock(ClockStates.Rebuilt(keys), n);
      ClockOrders.RebuiltEvictsInListingOrder(keys, n);
      assert ClockRuns.Take(keys, n) == Take(keys, n);
    }
  }

  /** An LRU or a Clock that has just been installed evicts the objects in the order in which they were listed to
      it. */
  lemma InstalledEvictsInListingOrder(s: CacheState, kind: Kind, listing: seq<Key>, n: nat)
    requires SafeCapacity(s.store.capacity) && Accounted(s.store)
    requires Possible(s, SetPolicy(kind, listing)) && Acceptable(s, SetPolicy(kind, listing))
    requires kind == LruKind || kind == ClockKind
    ensures Evicted(Step(s, SetPolicy(kind, listing)), n).store.items == s.store.items - Elems(Take(listing, n))
  {
    var t := Step(s, SetPolicy(kind, listing));
    SwitchRestoresCoherence(s, kind, listing);
    ListingInItems(s, listing);
    var entries := EntriesOf(s.store.items, listing);
    assert KeysIn(entries) == listing;
    assert "" in listing <==> "" in Elems(listing);
    assert t.policy == Rebuilt(kind, entries) && t.policy != NoPolicy;
    hide Sound, Rebuilt, Step, EvictedOne;
    EvictionsTakeVictims(t, n);
    RebuiltVictims(kind, entries, n);
  }
}
