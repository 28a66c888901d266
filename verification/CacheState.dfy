/** cache/core.go on values: a store, a policy and the counters, and what each call does to them. */
module CacheStates {
  import opened Base
  import opened Stores
  import opened Policies
  import Collectors

  datatype CacheState = CacheState(store: StoreState, policy: Policy, counters: Collectors.Counters)

  /** A new cache with a fresh policy of the given kind. */
  function NewCache(capacity: int, kind: Kind): CacheState {
    CacheState(Stores.NewState(capacity), Empty(kind), Collectors.ZERO)
  }

  function Got(s: CacheState, key: Key, visit: seq<nat>): (CacheState, Option<Value>) {
    if key in s.store.items then
      var e := s.store.items[key];
      (CacheState(Touched(s.store, key), Accessed(s.policy, key, visit), Collectors.Requested(s.counters, e.size, true)),
       Some(e.value))
    else
      (s.(counters := Collectors.Requested(s.counters, 0, false)), None)
  }

  /** One eviction, and whether it freed an entry. A victim the store does not hold is dropped from the
      policy only. */
  ghost function EvictedOne(s: CacheState): (CacheState, bool) {
    var (p, victim) := VictimOf(s.policy);
    match victim
    case None => (s.(policy := p), false)
    case Some(v) =>
      if v !in s.store.items then (s.(policy := Policies.Removed(p, v)), false)
      else
        (CacheState(Stores.Removed(s.store, v), Policies.Removed(p, v),
                    Collectors.Evicted(s.counters, s.store.items[v].size)),
         true)
  }

  /** The insertion loop: insert, or evict one entry and try again. */
  ghost function Stored(s: CacheState, key: Key, val: Value, size: int): (CacheState, Placement)
    decreases |s.store.items|
  {
    var (store, placed) := Stores.Inserted(s.store, key, val, size);
    if !placed.Refused? then
      (CacheState(store, Policies.Inserted(s.policy, key), Collectors.Fetched(s.counters, size)), placed)
    else if placed.error != CapacityExceeded || s.policy.NoPolicy? then (s, placed)
    else
      var (t, ok) := EvictedOne(s);
      if !ok then (t, Refused(CapacityExceeded))
      else
        EvictionShrinks(s);
        Stored(t, key, val, size)
  }

  /** What the caller of Put sees: the state and the error, if any. */
  function Outcome(r: (CacheState, Placement)): (CacheState, Option<Error>) {
    (r.0, if r.1.Refused? then Some(r.1.error) else None)
  }

  /** A round that ends the insertion loop. */
  lemma PutEnds(s: CacheState, key: Key, val: Value, size: int)
    requires Stores.Inserted(s.store, key, val, size).1 != Refused(CapacityExceeded) || s.policy.NoPolicy?
    ensures var (store, placed) := Stores.Inserted(s.store, key, val, size);
            Outcome(Stored(s, key, val, size)) ==
              if placed.Refused? then (s, Some(placed.error))
              else (CacheState(store, Policies.Inserted(s.policy, key), Collectors.Fetched(s.counters, size)), None)
  {
  }

  /** A round that evicts, if it can. */
  lemma PutGoesOn(s: CacheState, key: Key, val: Value, size: int)
    requires Stores.Inserted(s.store, key, val, size).1 == Refused(CapacityExceeded) && !s.policy.NoPolicy?
    ensures var (t, ok) := EvictedOne(s);
            Outcome(Stored(s, key, val, size)) ==
              if ok then Outcome(Stored(t, key, val, size)) else (t, Some(CapacityExceeded))
  {
  }

  lemma EvictionShrinks(s: CacheState)
    requires EvictedOne(s).1
    ensures |EvictedOne(s).0.store.items| == |s.store.items| - 1
    ensures EvictedOne(s).0.store.items.Keys <= s.store.items.Keys
  {
    var v := VictimOf(s.policy).1.value;
    assert s.store.items.Keys == EvictedOne(s).0.store.items.Keys + {v};
  }

  /** Whether a Put returns: its loop always ends, but the hook that follows the insertion may not. */
  ghost predicate PutReturns(s: CacheState, key: Key, val: Value, size: int)
    decreases |s.store.items|
  {
    var (store, placed) := Stores.Inserted(s.store, key, val, size);
    if !placed.Refused? then InsertReturns(s.policy, key)
    else if placed.error != CapacityExceeded || s.policy.NoPolicy? then true
    else
      var (t, ok) := EvictedOne(s);
      ok ==> (EvictionShrinks(s); PutReturns(t, key, val, size))
  }

  function Deleted(s: CacheState, key: Key): (CacheState, bool) {
    if key in s.store.items then
      (s.(store := Stores.Removed(s.store, key), policy := Policies.Removed(s.policy, key)), true)
    else (s, false)
  }

  function Emptied(s: CacheState): CacheState {
    s.(store := Stores.Cleared(s.store), policy := Reset(s.policy))
  }

  function Reset(p: Policy): Policy {
    Empty(match p
          case NoPolicy => NoKind
          case LruPolicy(_) => LruKind
          case LfuPolicy(l) => LfuKind(l.ageMax)
          case ClockPolicy(_) => ClockKind)
  }

  /** The entries a rebuild sees: keys and access counts, in the order the store's map was ranged over. */
  function EntriesOf(items: map<Key, Resident>, listing: seq<Key>): (r: seq<(Key, nat)>)
    requires forall i :: 0 <= i < |listing| ==> listing[i] in items
    ensures |r| == |listing|
    ensures forall i :: 0 <= i < |listing| ==> r[i] == (listing[i], items[listing[i]].accessCount)
  {
    seq(|listing|, i requires 0 <= i < |listing| => (listing[i], items[listing[i]].accessCount))
  }

  function Switched(s: CacheState, kind: Kind, listing: seq<Key>): CacheState
    requires forall i :: 0 <= i < |listing| ==> listing[i] in s.store.items
  {
    s.(policy := Rebuilt(kind, EntriesOf(s.store.items, listing)))
  }

  // ---------- Runs ----------

  /** A call, with the map orders Go happened to choose during it. */
  datatype Op =
    | Get(key: Key, visit: seq<nat>)
    | Put(key: Key, val: Value, size: int)
    | Remove(key: Key)
    | Clear
    | SetPolicy(kind: Kind, listing: seq<Key>)

  /** The call is one the program can make and that returns, and its map orders are orders of the maps at
      hand. */
  ghost predicate Possible(s: CacheState, op: Op) {
    match op
    case Get(key, visit) => key in s.store.items ==> Policies.VisitOf(s.policy, key, visit)
    case Put(key, val, size) => IsInt64(size) && PutReturns(s, key, val, size)
    case SetPolicy(_, listing) => Lists(listing, s.store.items.Keys)
    case _ => true
  }

  lemma ListingInItems(s: CacheState, listing: seq<Key>)
    requires Lists(listing, s.store.items.Keys)
    ensures forall i :: 0 <= i < |listing| ==> listing[i] in s.store.items
  {
    forall i | 0 <= i < |listing|
      ensures listing[i] in s.store.items
    {
      assert listing[i] in Elems(listing);
    }
  }

  ghost function Step(s: CacheState, op: Op): CacheState
    requires Possible(s, op)
  {
    match op
    case Get(key, visit) => Got(s, key, visit).0
    case Put(key, val, size) => Stored(s, key, val, size).0
    case Remove(key) => Deleted(s, key).0
    case Clear => Emptied(s)
    case SetPolicy(kind, listing) => ListingInItems(s, listing); Switched(s, kind, listing)
  }

  /** Clock reserves the empty string: it must not be given that key, nor take over a cache that holds it. */
  predicate Acceptable(s: CacheState, op: Op) {
    match op
    case Put(key, _, _) => Accepts(s.policy, key)
    case SetPolicy(kind, _) => kind == ClockKind ==> "" !in s.store.items
    case _ => true
  }

  ghost predicate PossibleRun(s: CacheState, ops: seq<Op>)
    decreases |ops|
  {
    ops != [] ==> Possible(s, ops[0]) && PossibleRun(Step(s, ops[0]), ops[1..])
  }

  ghost predicate ValidRun(s: CacheState, ops: seq<Op>)
    ensures ValidRun(s, ops) ==> PossibleRun(s, ops)
    decreases |ops|
  {
    ops != [] ==>
      Possible(s, ops[0]) && Acceptable(s, ops[0]) && ValidRun(Step(s, ops[0]), ops[1..])
  }

  ghost function Run(s: CacheState, ops: seq<Op>): CacheState
    requires PossibleRun(s, ops)
    decreases |ops|
  {
    if ops == [] then s else Run(Step(s, ops[0]), ops[1..])
  }

  // ---------- What every reachable state satisfies ----------

  /** Store and policy track the same keys, and the store's accounts are exact. */
  ghost predicate Sound(s: CacheState) {
    && SafeCapacity(s.store.capacity) && Accounted(s.store)
    && Policies.Inv(s.policy)
    && (s.policy != NoPolicy ==> Tracked(s.policy) == s.store.items.Keys)
  }
}
