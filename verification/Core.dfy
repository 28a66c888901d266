/** cache/core.go: the cache object, wiring a store, an interchangeable policy and the counters. Every
    method is proved to do to the abstract cache what its specification function says. */
module Cores {
  import opened Base
  import opened Stores
  import opened Policies
  import opened CacheStates
  import CacheLaws
  import Collectors
  import Lru
  import Lfu
  import LfuStates
  import LfuLaws
  import Clocks
  import ClockStates

  // ---------- The policy interface over the three policy objects ----------

  /** The policy field of the core: nil, or one of the shipped policies. */
  datatype PolicyRef = NoRef | LruRef(lru: Lru.LRU) | LfuRef(lfu: Lfu.LFU) | ClockRef(clock: Clocks.Clock)

  function Objects(r: PolicyRef): set<object>
    reads if r.ClockRef? then {r.clock} else {}
  {
    match r
    case NoRef => {}
    case LruRef(lru) => {lru}
    case LfuRef(lfu) => {lfu}
    case ClockRef(clock) => {clock, clock.slots}
  }

  ghost predicate ValidRef(r: PolicyRef)
    reads Objects(r)
  {
    match r
    case NoRef => true
    case LruRef(lru) => lru.Valid()
    case LfuRef(lfu) => lfu.Valid()
    case ClockRef(clock) => clock.Valid()
  }

  ghost function ViewOf(r: PolicyRef): (p: Policy)
    reads Objects(r)
    ensures p.NoPolicy? == r.NoRef? && p.ClockPolicy? == r.ClockRef?
  {
    match r
    case NoRef => NoPolicy
    case LruRef(lru) => LruPolicy(lru.Order())
    case LfuRef(lfu) => LfuPolicy(lfu.View())
    case ClockRef(clock) => ClockPolicy(clock.View())
  }

  function KindOf(r: PolicyRef): Kind
    reads Objects(r)
  {
    match r
    case NoRef => NoKind
    case LruRef(_) => LruKind
    case LfuRef(lfu) => LfuKind(lfu.ageMax)
    case ClockRef(_) => ClockKind
  }

  lemma ValidRefIsInv(r: PolicyRef)
    requires ValidRef(r)
    ensures Policies.Inv(ViewOf(r))
  {
  }

  /** Whether a policy object can track a key: Clock reserves the empty string. */
  predicate Takes(r: PolicyRef, key: Key) {
    r.ClockRef? ==> key != ""
  }

  method OnAccess(r: PolicyRef, key: Key) returns (ghost visit: seq<nat>)
    requires ValidRef(r)
    modifies Objects(r)
    ensures ValidRef(r) && Objects(r) == old(Objects(r))
    ensures Policies.VisitOf(old(ViewOf(r)), key, visit)
    ensures ViewOf(r) == Accessed(old(ViewOf(r)), key, visit)
  {
    visit := [];
    match r
    case NoRef =>
    case LruRef(lru) => lru.OnAccess(key);
    case LfuRef(lfu) => visit := lfu.OnAccess(key);
    case ClockRef(clock) => clock.OnAccess(key);
  }

  method OnInsert(r: PolicyRef, key: Key)
    requires ValidRef(r)
    modifies Objects(r)
    ensures ValidRef(r) <==> Takes(r, key)
    ensures fresh(Objects(r) - old(Objects(r)))
    ensures ViewOf(r) == Policies.Inserted(old(ViewOf(r)), key)
  {
    match r
    case NoRef =>
    case LruRef(lru) => lru.OnInsert(key);
    case LfuRef(lfu) => lfu.OnInsert(key);
    case ClockRef(clock) => clock.OnInsert(key);
  }

  method OnRemove(r: PolicyRef, key: Key)
    requires ValidRef(r)
    modifies Objects(r)
    ensures ValidRef(r) && Objects(r) == old(Objects(r))
    ensures ViewOf(r) == Policies.Removed(old(ViewOf(r)), key)
  {
    match r
    case NoRef =>
    case LruRef(lru) => lru.OnRemove(key);
    case LfuRef(lfu) => lfu.OnRemove(key);
    case ClockRef(clock) => clock.OnRemove(key);
  }

  method Victim(r: PolicyRef) returns (key: Key, ok: bool)
    requires ValidRef(r)
    modifies Objects(r)
    ensures ValidRef(r) && Objects(r) == old(Objects(r))
    ensures (ViewOf(r), if ok then Some(key) else None) == VictimOf(old(ViewOf(r)))
  {
    match r
    case NoRef => key, ok := "", false;
    case LruRef(lru) => key, ok := lru.Victim();
    case LfuRef(lfu) => key, ok := lfu.Victim();
    case ClockRef(clock) => key, ok := clock.Victim();
  }

  method ResetPolicy(r: PolicyRef)
    modifies Objects(r)
    ensures ValidRef(r) && fresh(Objects(r) - old(Objects(r))) && KindOf(r) == old(KindOf(r))
    ensures ViewOf(r) == Empty(old(KindOf(r))) == CacheStates.Reset(old(ViewOf(r)))
  {
    match r
    case NoRef =>
    case LruRef(lru) => lru.Reset();
    case LfuRef(lfu) => lfu.Reset();
    case ClockRef(clock) => clock.Reset();
  }

  method Rebuild(r: PolicyRef, entries: seq<(Key, nat)>)
    requires NoDup(KeysIn(entries))
    modifies Objects(r)
    ensures ValidRef(r) <==> (r.ClockRef? ==> "" !in KeysIn(entries))
    ensures fresh(Objects(r) - old(Objects(r)))
    ensures ViewOf(r) == Rebuilt(old(KindOf(r)), entries)
  {
    match r
    case NoRef =>
    case LruRef(lru) => lru.Rebuild(KeysIn(entries));
    case LfuRef(lfu) => lfu.Rebuild(entries);
    case ClockRef(clock) => clock.Rebuild(KeysIn(entries));
  }

  // ---------- The core ----------

  class Core {
    const store: Store
    var policy: PolicyRef
    const metrics: Collectors.Collector

    function Repr(): set<object>
      reads this, store, if policy.ClockRef? then {policy.clock} else {}
    {
      {this, metrics} + store.Repr() + Objects(policy)
    }

    ghost predicate Valid()
      reads this, store, Objects(policy)
    {
      && store.Valid() && ValidRef(policy)
      && {this, metrics} !! store.Repr() && {this, metrics} !! Objects(policy) && store.Repr() !! Objects(policy)
    }

    ghost function View(): (s: CacheState)
      reads this, store, store.items.Values, Objects(policy), metrics
      ensures s.policy.NoPolicy? == policy.NoRef?
    {
      CacheState(store.View(), ViewOf(policy), metrics.View())
    }

    /** The policy given is taken as it is: it is not rebuilt. */
    constructor (capacity: int, policy: PolicyRef)
      ensures Valid() <==> ValidRef(policy)
      ensures View() == CacheState(Stores.NewState(capacity), ViewOf(policy), Collectors.ZERO)
      ensures this.policy == policy
      ensures ValidRef(policy) && ViewOf(policy) == Empty(KindOf(policy)) ==> View() == NewCache(capacity, KindOf(policy))
      ensures ValidRef(policy) && SafeCapacity(capacity) ==> (Sound(View()) <==> Tracked(ViewOf(policy)) == {})
      ensures fresh(Repr() - Objects(policy))
    {
      hide Lru.LRU.Valid, Lfu.LFU.Valid, Clocks.Clock.Valid, Store.Valid, Store.View, Sound, Tracked, ViewOf, KindOf;
      store := new Store(capacity);
      this.policy := policy;
      metrics := new Collectors.Collector();
      new;
      if ValidRef(policy) && SafeCapacity(capacity) {
        ValidRefIsInv(policy);
        CacheLaws.NewCacheSoundIff(capacity, ViewOf(policy));
      }
    }

    method Get(key: Key) returns (val: Value, hit: bool, ghost visit: seq<nat>)
      requires Valid()
      modifies Repr()
      ensures Valid() && fresh(Repr() - old(Repr())) && policy == old(policy)
      ensures Possible(old(View()), Op.Get(key, visit))
      ensures (View(), if hit then Some(val) else None) == Got(old(View()), key, visit)
      ensures old(Sound(View())) ==> Sound(View())
    {
      hide ValidRef, ViewOf, Store.Valid, Store.View, Sound, Accessed, Touched, Policies.VisitOf;
      var size;
      val, size, hit, visit := LookupLocked(key);
      metrics.RecordRequest(size, hit);
      if old(Sound(View())) {
        CacheLaws.StepIsSound(old(View()), Op.Get(key, visit));
      }
    }

    /** The part of Get under the lock: the store's access, the hook, and what is read from the entry. */
    method LookupLocked(key: Key) returns (val: Value, size: int, hit: bool, ghost visit: seq<nat>)
      requires Valid()
      modifies store.Repr(), Objects(policy)
      ensures Valid() && fresh(Repr() - old(Repr()))
      ensures hit == (key in old(View()).store.items)
      ensures if hit then val == old(View()).store.items[key].value && size == old(View()).store.items[key].size
              else val == [] && size == 0
      ensures hit ==> Policies.VisitOf(old(View()).policy, key, visit)
      ensures View() == if hit then old(View()).(store := Touched(old(View()).store, key),
                                                 policy := Accessed(old(View()).policy, key, visit))
                        else old(View())
    {
      hide ValidRef, ViewOf, Store.Valid, Store.View, Accessed, Policies.VisitOf;
      val, size, visit := [], 0, [];
      var e := store.Touch(key);
      hit := e != null;
      if hit {
        val := e.value;
        size := e.size;
        visit := OnAccess(policy, key);
      }
    }

    /** A Put that stores the empty key in a Clock cache leaves the policy object broken; every other one
        leaves all objects valid. */
    method Put(key: Key, val: Value, size: int) returns (err: Option<Error>)
      requires Valid() && IsInt64(size)
      modifies Repr()
      ensures Valid() <==> Takes(policy, key) || err.Some?
      ensures fresh(Repr() - old(Repr())) && policy == old(policy)
      ensures (View(), err) == Outcome(Stored(old(View()), key, val, size))
      ensures old(Sound(View())) ==> (Sound(View()) <==> Valid())
    {
      hide ValidRef, ViewOf, Store.Valid, Store.View, Sound, Stored;
      err := PutLocked(key, val, size);
      if old(Sound(View())) {
        CacheLaws.PutIsSound(old(View()), key, val, size);
      }
    }

    /** The insertion loop: try to insert, evict one entry when there is no room, and try again. */
    method PutLocked(key: Key, val: Value, size: int) returns (err: Option<Error>)
      requires Valid()
      modifies Repr()
      ensures Valid() <==> Takes(policy, key) || err.Some?
      ensures fresh(Repr() - old(Repr())) && policy == old(policy)
      ensures (View(), err) == Outcome(Stored(old(View()), key, val, size))
    {
      hide Valid, View, ValidRef, ViewOf, Stored, Outcome, EvictedOne;
      var done := false;
      err := None;
      ghost var goal := Outcome(Stored(View(), key, val, size));
      while !done
        invariant fresh(Repr() - old(Repr())) && policy == old(policy)
        invariant if done then goal == (View(), err) && (Valid() <==> Takes(policy, key) || err.Some?)
                  else Valid() && goal == Outcome(Stored(View(), key, val, size))
        decreases !done, |View().store.items|
      {
        err, done := Round(key, val, size);
      }
    }

    /** One round of the Put loop: it ends the loop, or evicts one entry. */
    method Round(key: Key, val: Value, size: int) returns (err: Option<Error>, done: bool)
      requires Valid()
      modifies Repr()
      ensures fresh(Repr() - old(Repr())) && policy == old(policy)
      ensures done ==> (Valid() <==> Takes(policy, key) || err.Some?)
      ensures done ==> (View(), err) == Outcome(Stored(old(View()), key, val, size))
      ensures !done ==> Valid() && |View().store.items| < old(|View().store.items|)
      ensures !done ==> Outcome(Stored(View(), key, val, size)) == Outcome(Stored(old(View()), key, val, size))
    {
      hide Valid, View, ValidRef, ViewOf, Stored, Stores.Inserted, Policies.Inserted, EvictedOne, Outcome;
      ghost var s := View();
      err := Attempt(key, val, size);
      if err != Some(CapacityExceeded) || policy == NoRef {
        PutEnds(s, key, val, size);
        return err, true;
      }
      var ok := EvictOneLocked();
      PutGoesOn(s, key, val, size);
      if !ok {
        return Some(CapacityExceeded), true;
      }
      EvictionShrinks(s);
      return err, false;
    }

    /** One round of the Put loop before any eviction: the insertion, and its accounting if it succeeds. */
    method Attempt(key: Key, val: Value, size: int) returns (err: Option<Error>)
      requires Valid()
      modifies Repr()
      ensures Valid() <==> Takes(policy, key) || err.Some?
      ensures fresh(Repr() - old(Repr())) && policy == old(policy)
      ensures var s := old(View()); var (store, placed) := Stores.Inserted(s.store, key, val, size);
              if placed.Refused? then View() == s && err == Some(placed.error)
              else err == None &&
                   View() == CacheState(store, Policies.Inserted(s.policy, key), Collectors.Fetched(s.counters, size))
    {
      hide ValidRef, ViewOf, Store.Valid, Store.View, Stores.Inserted, Policies.Inserted, Takes;
      var e;
      e, err := store.Insert(key, val, size);
      if err == None {
        NoteInsertion(key, size);
      }
    }

    /** What follows a successful insertion: the hook, and the count of the fetched bytes. */
    method NoteInsertion(key: Key, size: int)
      requires Valid()
      modifies Objects(policy), metrics
      ensures Valid() <==> Takes(policy, key)
      ensures fresh(Objects(policy) - old(Objects(policy)))
      ensures ViewOf(policy) == Policies.Inserted(old(ViewOf(policy)), key)
      ensures metrics.View() == Collectors.Fetched(old(metrics.View()), size)
    {
      hide ValidRef, ViewOf, Store.Valid, Store.View, Policies.Inserted;
      OnInsert(policy, key);
      metrics.RecordFetch(size);
    }

    /** Evicts the policy's victim. A victim the store does not hold is only dropped from the policy. */
    method EvictOneLocked() returns (ok: bool)
      requires Valid()
      modifies Repr()
      ensures Valid() && fresh(Repr() - old(Repr())) && policy == old(policy)
      ensures (View(), ok) == EvictedOne(old(View()))
    {
      hide ValidRef, ViewOf, Store.Valid, Store.View, Sound, VictimOf, Stores.Removed, Policies.Removed;
      var victim, found := Victim(policy);
      if !found {
        return false;
      }
      var e := store.Remove(victim);
      if e == null {
        OnRemove(policy, victim);
        return false;
      }
      OnRemove(policy, victim);
      metrics.RecordEviction(e.size);
      return true;
    }

    method Remove(key: Key) returns (present: bool)
      requires Valid()
      modifies Repr()
      ensures Valid() && fresh(Repr() - old(Repr())) && policy == old(policy)
      ensures (View(), present) == Deleted(old(View()), key)
      ensures present <==> key in old(View()).store.items
      ensures View().store.items == old(View()).store.items - {key}
      ensures !present ==> View() == old(View())
      ensures present ==> Tracked(View().policy) == Tracked(old(View()).policy) - {key}
      ensures old(Sound(View())) ==> Sound(View())
    {
      hide ValidRef, ViewOf, Store.Valid, Store.View, Sound, Tracked;
      ValidRefIsInv(policy);
      CacheLaws.RemoveTakesOut(View(), key);
      if old(Sound(View())) {
        CacheLaws.StepIsSound(View(), Op.Remove(key));
      }
      var e := store.Remove(key);
      if e == null {
        return false;
      }
      OnRemove(policy, key);
      return true;
    }

    method Clear()
      requires Valid()
      modifies Repr()
      ensures Valid() && fresh(Repr() - old(Repr())) && policy == old(policy)
      ensures View() == Emptied(old(View()))
      ensures old(Sound(View())) ==> Sound(View())
    {
      hide ValidRef, ViewOf, Store.Valid, Store.View, Sound;
      if old(Sound(View())) {
        CacheLaws.StepIsSound(View(), Op.Clear);
      }
      store.Clear();
      ResetPolicy(policy);
    }

    /** The resident entries as a rebuild reads them. */
    method SnapshotEntries() returns (snapshot: seq<(Key, nat)>, ghost listing: seq<Key>)
      requires store.Valid()
      ensures Lists(listing, store.View().items.Keys)
      ensures forall i :: 0 <= i < |listing| ==> listing[i] in store.View().items
      ensures snapshot == EntriesOf(store.View().items, listing) && KeysIn(snapshot) == listing
    {
      hide Store.Valid, Store.View;
      var entries := store.Entries();
      snapshot := [];
      for i := 0 to |entries|
        invariant |snapshot| == i
        invariant forall j :: 0 <= j < i ==> snapshot[j] == (entries[j].key, entries[j].accessCount)
      {
        snapshot := snapshot + [(entries[i].key, entries[i].accessCount)];
      }
      listing := KeysOf(entries);
    }

    /** Installs a policy object, in whatever state it is, and rebuilds it from the resident entries. */
    method SetPolicy(p: PolicyRef) returns (ghost listing: seq<Key>)
      requires store.Valid()
      modifies this`policy, Objects(p)
      ensures policy == p && (Valid() <==> (p.ClockRef? ==> "" !in old(store.View()).items))
      ensures var s := CacheState(old(store.View()), NoPolicy, old(metrics.View()));
              var op := Op.SetPolicy(old(KindOf(p)), listing);
              && Possible(s, op) && View() == Step(s, op)
              && (SafeCapacity(s.store.capacity) && Accounted(s.store) ==> (Sound(View()) <==> Valid()))
    {
      hide ValidRef, ViewOf, Store.Valid, Store.View, Sound, Rebuilt, Accounted;
      ghost var s := CacheState(store.View(), NoPolicy, metrics.View());
      ghost var kind := KindOf(p);
      policy := p;
      listing := InstallLocked();
      if SafeCapacity(s.store.capacity) && Accounted(s.store) {
        CacheLaws.SwitchRestoresCoherence(s, kind, listing);
      }
    }

    /** Resets the policy object just put in place and rebuilds it. */
    method InstallLocked() returns (ghost listing: seq<Key>)
      requires store.Valid()
      modifies Objects(policy)
      ensures Valid() <==> (policy.ClockRef? ==> "" !in store.View().items)
      ensures store.View() == old(store.View()) && metrics.View() == old(metrics.View())
      ensures Lists(listing, store.View().items.Keys)
      ensures forall i :: 0 <= i < |listing| ==> listing[i] in store.View().items
      ensures ViewOf(policy) == Rebuilt(old(KindOf(policy)), EntriesOf(store.View().items, listing))
    {
      hide ValidRef, ViewOf, Store.Valid, Store.View, Rebuilt, CacheStates.Reset, Empty;
      ResetPolicy(policy);
      var snapshot;
      snapshot, listing := SnapshotEntries();
      assert "" in listing <==> "" in Elems(listing);
      Rebuild(policy, snapshot);
    }
  }
}
