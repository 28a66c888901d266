/** LRU inclusion for byte capacities: a larger LRU cache never misses where a smaller one hits. The
    request stream is driven as the demo drives it, by a Get and, on a miss, a Put of the object. */
module LruInclusion {
  import opened Base
  import opened Stores
  import opened Policies
  import opened CacheStates
  import opened CacheLaws
  import Lru

  // ---------- The recency order of one cache ----------

  function Weight(order: seq<Key>, size: Key -> nat): nat {
    if order == [] then 0 else Weight(order[..|order| - 1], size) + size(order[|order| - 1])
  }

  /** The longest prefix that weighs at most `room`. */
  function Kept(order: seq<Key>, room: int, size: Key -> nat): seq<Key> {
    if order == [] || Weight(order, size) <= room then order
    else Kept(order[..|order| - 1], room, size)
  }

  /** The recency order after one request, in a cache of `capacity` bytes. */
  function Served(order: seq<Key>, capacity: int, key: Key, size: Key -> nat): seq<Key> {
    [key] + if key in order then Without(order, key) else Kept(order, capacity - size(key), size)
  }

  lemma {:induction false} WeightGrows(order: seq<Key>, m: nat, size: Key -> nat)
    requires m <= |order|
    ensures Weight(order[..m], size) <= Weight(order, size)
  {
    if m == |order| {
      assert order[..m] == order;
    } else {
      WeightGrows(order[..|order| - 1], m, size);
      assert order[..|order| - 1][..m] == order[..m];
    }
  }

  lemma {:induction false} KeptIsLongestPrefix(order: seq<Key>, room: int, size: Key -> nat)
    requires room >= 0
    ensures Kept(order, room, size) <= order
    ensures Weight(Kept(order, room, size), size) <= room
    ensures forall m :: 0 <= m <= |order| && Weight(order[..m], size) <= room ==> m <= |Kept(order, room, size)|
  {
    if order != [] && Weight(order, size) > room {
      var front := order[..|order| - 1];
      KeptIsLongestPrefix(front, room, size);
      forall m | 0 <= m <= |order| && Weight(order[..m], size) <= room
        ensures m <= |Kept(order, room, size)|
      {
        assert m < |order| by {
          assert order[..|order|] == order;
        }
        assert front[..m] == order[..m];
      }
    }
  }

  lemma KeptIsMonotone(a: seq<Key>, b: seq<Key>, room: int, more: int, size: Key -> nat)
    requires a <= b && 0 <= room <= more
    ensures Kept(a, room, size) <= Kept(b, more, size)
  {
    KeptIsLongestPrefix(a, room, size);
    KeptIsLongestPrefix(b, more, size);
    var m := |Kept(a, room, size)|;
    assert Kept(a, room, size) == a[..m] == b[..m];
  }

  lemma ConsPrefix(key: Key, kept: seq<Key>, a: seq<Key>, rest: seq<Key>)
    requires kept <= a
    ensures [key] + kept <= [key] + (a + rest)
  {
  }

  /** One request keeps the smaller cache's order a prefix of the larger one's. */
  lemma ServedKeepsPrefix(a: seq<Key>, b: seq<Key>, capacity: int, larger: int, key: Key, size: Key -> nat)
    requires a <= b && size(key) <= capacity <= larger
    ensures Served(a, capacity, key, size) <= Served(b, larger, key, size)
  {
    var rest := b[|a|..];
    assert b == a + rest;
    if key in a {
      WithoutAppend(a, rest, key);
      hide Without;
    } else {
      KeptIsMonotone(a, b, capacity - size(key), larger - size(key), size);
      if key in b {
        WithoutAppend(a, rest, key);
        KeptIsLongestPrefix(a, capacity - size(key), size);
        ConsPrefix(key, Kept(a, capacity - size(key), size), a, Without(rest, key));
      }
      hide Kept, Without;
    }
  }

  // ---------- The cache follows its recency order ----------

  /** A sound LRU cache in which every object has its fixed size. */
  ghost predicate Driven(s: CacheState, capacity: int, size: Key -> nat) {
    && Sound(s) && s.policy.LruPolicy? && s.store.capacity == capacity
    && forall k :: k in s.store.items ==> s.store.items[k].size == size(k)
  }

  ghost function Requested(s: CacheState, key: Key, val: Value, size: Key -> nat): CacheState {
    var (t, hit) := Got(s, key, []);
    if hit.Some? then t else Stored(t, key, val, size(key)).0
  }

  lemma WithoutTail(order: seq<Key>, items: map<Key, Resident>)
    requires NoDup(order) && order != [] && Elems(order) == items.Keys
    ensures var last := order[|order| - 1];
            last in items && Elems(order[..|order| - 1]) == (items - {last}).Keys
            && Sizes(items - {last}) == Sizes(items) - {last}
  {
    var front, last := order[..|order| - 1], order[|order| - 1];
    assert last in Elems(order);
    forall k | k in items && k != last
      ensures k in front
    {
      assert k in Elems(order);
      var i :| 0 <= i < |order| && order[i] == k;
      assert front[i] == k;
    }
  }

  lemma {:induction false} WeightIsSum(order: seq<Key>, items: map<Key, Resident>, size: Key -> nat)
    requires NoDup(order) && Elems(order) == items.Keys && forall k :: k in items ==> items[k].size == size(k)
    ensures Weight(order, size) == Sum(Sizes(items))
  {
    if order == [] {
      assert Sizes(items).Keys == {};
    } else {
      var last := order[|order| - 1];
      WithoutTail(order, items);
      WeightIsSum(order[..|order| - 1], items - {last}, size);
      SumSplit(Sizes(items), last);
    }
  }

  lemma DrivenWeight(s: CacheState, capacity: int, size: Key -> nat)
    requires Driven(s, capacity, size)
    ensures s.store.bytes == Weight(s.policy.order, size)
  {
    WeightIsSum(s.policy.order, s.store.items, size);
  }

  lemma EvictionDropsTail(s: CacheState, capacity: int, size: Key -> nat)
    requires Driven(s, capacity, size) && s.policy.order != []
    ensures var t := EvictedOne(s).0;
            && EvictedOne(s).1 && Driven(t, capacity, size)
            && t.policy.order == s.policy.order[..|s.policy.order| - 1]
            && t.counters.hits == s.counters.hits
            && t.store.items.Keys <= s.store.items.Keys
  {
    EvictionIsSound(s);
    WithoutLast(s.policy.order);
    assert s.policy.order[|s.policy.order| - 1] in Elems(s.policy.order);
  }

  /** A Put of a missing object keeps the longest prefix of the recency order that leaves room for it. */
  lemma {:induction false} PutKeepsLongestPrefix(s: CacheState, key: Key, val: Value, capacity: int, size: Key -> nat)
    requires Driven(s, capacity, size) && key !in s.store.items && size(key) <= capacity
    ensures var t := Stored(s, key, val, size(key)).0;
            && Driven(t, capacity, size)
            && t.policy.order == [key] + Kept(s.policy.order, capacity - size(key), size)
            && t.counters.hits == s.counters.hits
    decreases |s.policy.order|
  {
    var order := s.policy.order;
    DrivenWeight(s, capacity, size);
    InsertKeepsAccounts(s.store, key, val, size(key));
    assert key !in Elems(order);
    if Weight(order, size) <= capacity - size(key) {
      PutIsSound(s, key, val, size(key));
    } else {
      EvictionDropsTail(s, capacity, size);
      EvictionShrinks(s);
      PutKeepsLongestPrefix(EvictedOne(s).0, key, val, capacity, size);
    }
  }

  lemma GetKeepsDriven(s: CacheState, key: Key, capacity: int, size: Key -> nat)
    requires Driven(s, capacity, size)
    ensures var t := Got(s, key, []).0;
            && Driven(t, capacity, size) && t.store.items.Keys == s.store.items.Keys
            && t.policy.order == (if key in s.policy.order then [key] + Without(s.policy.order, key) else s.policy.order)
            && t.counters.hits == s.counters.hits + (if key in s.policy.order then 1 else 0)
    ensures Got(s, key, []).1.Some? <==> key in s.policy.order
  {
    assert key in s.store.items <==> key in Elems(s.policy.order);
    StepIsSound(s, Get(key, []));
  }

  lemma RequestServes(s: CacheState, key: Key, val: Value, capacity: int, size: Key -> nat)
    requires Driven(s, capacity, size) && size(key) <= capacity
    ensures var t := Requested(s, key, val, size);
            && Driven(t, capacity, size)
            && t.policy.order == Served(s.policy.order, capacity, key, size)
            && t.counters.hits == s.counters.hits + if key in s.policy.order then 1 else 0
  {
    GetKeepsDriven(s, key, capacity, size);
    if key !in s.policy.order {
      assert key !in Elems(s.policy.order);
      PutKeepsLongestPrefix(Got(s, key, []).0, key, val, capacity, size);
    }
  }

  // ---------- Inclusion over whole traces ----------

  ghost function Replayed(s: CacheState, trace: seq<Key>, val: Value, size: Key -> nat): CacheState
    decreases |trace|
  {
    if trace == [] then s else Replayed(Requested(s, trace[0], val, size), trace[1..], val, size)
  }

  /** An object larger than the cache is never resident, and a request for it changes neither the contents
      nor the hits. */
  lemma OversizedIsRefused(s: CacheState, key: Key, val: Value, capacity: int, size: Key -> nat)
    requires Driven(s, capacity, size) && capacity < size(key) < TWO_TO_THE_63
    ensures var t := Requested(s, key, val, size);
            && Driven(t, capacity, size) && t.policy.order == s.policy.order && t.counters.hits == s.counters.hits
            && t.store.items.Keys == s.store.items.Keys
  {
    assert key !in s.store.items;
    assert key !in s.policy.order by {
      assert Elems(s.policy.order) == s.store.items.Keys;
    }
    GetKeepsDriven(s, key, capacity, size);
    assert !Got(s, key, []).1.Some?;
  }

  /** The object does not lie between the two capacities: both caches take it, or neither does. */
  predicate SameFate(size: nat, capacity: int, larger: int) {
    size <= capacity || larger < size < TWO_TO_THE_63
  }

  lemma RequestKeepsPrefix(s: CacheState, t: CacheState, key: Key, val: Value,
                           capacity: int, larger: int, size: Key -> nat)
    requires Driven(s, capacity, size) && Driven(t, larger, size) && capacity <= larger
    requires SameFate(size(key), capacity, larger)
    requires s.policy.order <= t.policy.order && s.counters.hits <= t.counters.hits
    ensures var s', t' := Requested(s, key, val, size), Requested(t, key, val, size);
            && Driven(s', capacity, size) && Driven(t', larger, size)
            && s'.policy.order <= t'.policy.order && s'.counters.hits <= t'.counters.hits
  {
    if size(key) <= capacity {
      RequestServes(s, key, val, capacity, size);
      RequestServes(t, key, val, larger, size);
      ServedKeepsPrefix(s.policy.order, t.policy.order, capacity, larger, key, size);
    } else {
      OversizedIsRefused(s, key, val, capacity, size);
      OversizedIsRefused(t, key, val, larger, size);
    }
    hide Sound, Requested, Served;
  }

  lemma {:induction false} ReplayKeepsPrefix(s: CacheState, t: CacheState, trace: seq<Key>, val: Value,
                                             capacity: int, larger: int, size: Key -> nat)
    requires Driven(s, capacity, size) && Driven(t, larger, size) && capacity <= larger
    requires s.policy.order <= t.policy.order && s.counters.hits <= t.counters.hits
    requires forall i :: 0 <= i < |trace| ==> SameFate(size(trace[i]), capacity, larger)
    ensures var s', t' := Replayed(s, trace, val, size), Replayed(t, trace, val, size);
            && Driven(s', capacity, size) && Driven(t', larger, size)
            && s'.policy.order <= t'.policy.order && s'.counters.hits <= t'.counters.hits
    decreases |trace|
  {
    if trace != [] {
      var key := trace[0];
      assert SameFate(size(key), capacity, larger);
      hide Driven, Requested;
      RequestKeepsPrefix(s, t, key, val, capacity, larger, size);
      ReplayKeepsPrefix(Requested(s, key, val, size), Requested(t, key, val, size), trace[1..], val,
                        capacity, larger, size);
    }
  }

  /** What a cache holds after a trace, from the start. */
  ghost function Contents(trace: seq<Key>, val: Value, capacity: int, size: Key -> nat): set<Key> {
    Replayed(NewCache(capacity, LruKind), trace, val, size).store.items.Keys
  }

  /** For every trace of objects of fixed sizes, none of which lies between the two capacities: at every
      point the keys resident in the smaller LRU cache are resident in the larger one, which therefore has
      at least as many hits. */
  lemma LargerLruNeverWorse(trace: seq<Key>, val: Value, capacity: int, larger: int, size: Key -> nat)
    requires 0 <= capacity <= larger < TWO_TO_THE_62
    requires forall i :: 0 <= i < |trace| ==> SameFate(size(trace[i]), capacity, larger)
    ensures Contents(trace, val, capacity, size) <= Contents(trace, val, larger, size)
    ensures Replayed(NewCache(capacity, LruKind), trace, val, size).counters.hits
            <= Replayed(NewCache(larger, LruKind), trace, val, size).counters.hits
  {
    NewCacheIsSound(capacity, LruKind);
    NewCacheIsSound(larger, LruKind);
    ReplayKeepsPrefix(NewCache(capacity, LruKind), NewCache(larger, LruKind), trace, val, capacity, larger, size);
    var s := Replayed(NewCache(capacity, LruKind), trace, val, size);
    var t := Replayed(NewCache(larger, LruKind), trace, val, size);
    assert Elems(s.policy.order) <= Elems(t.policy.order);
  }

  /** All keys seen so far, most recent first. */
  function RecencyStack(stack: seq<Key>, trace: seq<Key>): seq<Key>
    decreases |trace|
  {
    if trace == [] then stack else RecencyStack([trace[0]] + Without(stack, trace[0]), trace[1..])
  }

  lemma ServedStaysOnStack(order: seq<Key>, stack: seq<Key>, capacity: int, key: Key, size: Key -> nat)
    requires order <= stack && size(key) <= capacity
    ensures Served(order, capacity, key, size) <= [key] + Without(stack, key)
  {
    var rest := stack[|order|..];
    assert stack == order + rest;
    WithoutAppend(order, rest, key);
    KeptIsLongestPrefix(order, capacity - size(key), size);
  }

  /** What an LRU cache holds is a prefix of the recency stack of its trace. */
  lemma {:induction false} ContentsArePrefixOfStack(s: CacheState, stack: seq<Key>, trace: seq<Key>, val: Value,
                                                    capacity: int, size: Key -> nat)
    requires Driven(s, capacity, size) && s.policy.order <= stack
    requires forall i :: 0 <= i < |trace| ==> size(trace[i]) <= capacity
    ensures Driven(Replayed(s, trace, val, size), capacity, size)
    ensures Replayed(s, trace, val, size).policy.order <= RecencyStack(stack, trace)
    decreases |trace|
  {
    if trace != [] {
      var key := trace[0];
      assert size(key) <= capacity;
      RequestServes(s, key, val, capacity, size);
      ServedStaysOnStack(s.policy.order, stack, capacity, key, size);
      ContentsArePrefixOfStack(Requested(s, key, val, size), [key] + Without(stack, key), trace[1..], val, capacity, size);
    }
  }

  lemma OrderIsContents(s: CacheState, capacity: int, size: Key -> nat)
    requires Driven(s, capacity, size)
    ensures forall k :: k in s.store.items <==> k in s.policy.order
  {
    assert forall k :: k in s.store.items.Keys <==> k in Elems(s.policy.order);
  }

  lemma FirstRequest(a: Key, val: Value, capacity: int, size: Key -> nat)
    requires size(a) <= capacity < TWO_TO_THE_62
    ensures var s := Requested(NewCache(capacity, LruKind), a, val, size);
            Driven(s, capacity, size) && s.policy.order == [a]
  {
    NewCacheIsSound(capacity, LruKind);
    RequestServes(NewCache(capacity, LruKind), a, val, capacity, size);
  }

  /** Requests for objects larger than the cache leave it as it is. */
  lemma {:induction false} OversizedReplay(s: CacheState, trace: seq<Key>, val: Value, capacity: int, size: Key -> nat)
    requires Driven(s, capacity, size)
    requires forall i :: 0 <= i < |trace| ==> capacity < size(trace[i]) < TWO_TO_THE_63
    ensures Replayed(s, trace, val, size).store.items.Keys == s.store.items.Keys
    ensures Replayed(s, trace, val, size).counters.hits == s.counters.hits
    decreases |trace|
  {
    if trace != [] {
      hide Driven, Requested;
      OversizedIsRefused(s, trace[0], val, capacity, size);
      OversizedReplay(Requested(s, trace[0], val, size), trace[1..], val, capacity, size);
    }
  }

  lemma ReplayFirst(s: CacheState, a: Key, trace: seq<Key>, val: Value, size: Key -> nat)
    ensures Replayed(s, [a] + trace, val, size) == Replayed(Requested(s, a, val, size), trace, val, size)
  {
    assert ([a] + trace)[1..] == trace;
  }

  // ---------- Objects between the two capacities ----------

  lemma SmallerStillHolds(a: Key, bs: seq<Key>, val: Value, capacity: int, size: Key -> nat)
    requires size(a) <= capacity < TWO_TO_THE_62
    requires forall i :: 0 <= i < |bs| ==> capacity < size(bs[i]) < TWO_TO_THE_63
    ensures a in Contents([a] + bs, val, capacity, size)
  {
    FirstRequest(a, val, capacity, size);
    var s := Requested(NewCache(capacity, LruKind), a, val, size);
    OrderIsContents(s, capacity, size);
    OversizedReplay(s, bs, val, capacity, size);
    ReplayFirst(NewCache(capacity, LruKind), a, bs, val, size);
  }

  lemma ReverseFirst(s: seq<Key>)
    requires s != []
    ensures Reverse(s) == Reverse(s[1..]) + [s[0]]
  {
  }

  lemma {:induction false} StackOfDistinct(stack: seq<Key>, trace: seq<Key>)
    requires NoDup(trace) && forall i :: 0 <= i < |trace| ==> trace[i] !in stack
    ensures RecencyStack(stack, trace) == Reverse(trace) + stack
    decreases |trace|
  {
    if trace == [] {
      assert Reverse(trace) + stack == stack;
    } else {
      var rest := trace[1..];
      WithoutAbsent(stack, trace[0]);
      StackOfDistinct([trace[0]] + stack, rest);
      ReverseFirst(trace);
      hide Reverse, Without, NoDup;
      assert Reverse(rest) + [trace[0]] + stack == Reverse(rest) + ([trace[0]] + stack);
    }
  }

  lemma {:induction false} WeightOfEqual(order: seq<Key>, z: nat, size: Key -> nat)
    requires forall i :: 0 <= i < |order| ==> size(order[i]) == z
    ensures Weight(order, size) == |order| * z
  {
    if order != [] {
      WeightOfEqual(order[..|order| - 1], z, size);
    }
  }

  lemma {:induction false} WeightConcat(a: seq<Key>, b: seq<Key>, size: Key -> nat)
    ensures Weight(a + b, size) == Weight(a, size) + Weight(b, size)
    decreases |b|
  {
    if b == [] {
      assert a + b == a;
    } else {
      var n := |b| - 1;
      assert (a + b)[..|a + b| - 1] == a + b[..n];
      WeightConcat(a, b[..n], size);
    }
  }

  lemma StackFirst(a: Key, bs: seq<Key>)
    ensures RecencyStack([], [a] + bs) == RecencyStack([a], bs)
  {
    assert ([a] + bs)[1..] == bs;
    assert [a] + Without([], a) == [a];
  }

  lemma DistinctStack(a: Key, bs: seq<Key>)
    requires NoDup(bs) && forall i :: 0 <= i < |bs| ==> bs[i] != a
    ensures RecencyStack([], [a] + bs) == Reverse(bs) + [a]
  {
    hide *;
    StackFirst(a, bs);
    StackOfDistinct([a], bs);
  }

  /** A prefix that reaches the end of a list without repetitions is the whole list. */
  lemma PrefixWithLast(order: seq<Key>, front: seq<Key>, a: Key)
    requires order <= front + [a] && a in order && a !in front
    ensures order == front + [a]
  {
    var i :| 0 <= i < |order| && order[i] == a;
    assert order[i] == (front + [a])[i];
    assert i == |front|;
  }

  lemma WeightOfWhole(bs: seq<Key>, a: Key, z: nat, size: Key -> nat)
    requires forall i :: 0 <= i < |bs| ==> size(bs[i]) == z
    ensures Weight(Reverse(bs) + [a], size) == |bs| * z + size(a)
  {
    WeightConcat(Reverse(bs), [a], size);
    WeightOfEqual(Reverse(bs), z, size);
    assert Weight([a], size) == size(a) by {
      assert [a][..0] == [];
    }
  }

  /** The first object of a trace of distinct ones stays resident only as long as all of them fit. */
  lemma FirstStaysOnlyIfAllFit(a: Key, bs: seq<Key>, z: nat, val: Value, capacity: int, size: Key -> nat)
    requires capacity < TWO_TO_THE_62 && NoDup(bs) && size(a) <= capacity
    requires forall i :: 0 <= i < |bs| ==> bs[i] != a && size(bs[i]) == z <= capacity
    requires a in Contents([a] + bs, val, capacity, size)
    ensures size(a) + |bs| * z <= capacity
  {
    hide NewCache, Weight, RecencyStack, Sound, Replayed;
    var empty := NewCache(capacity, LruKind);
    NewIsDriven(capacity, size);
    assert forall i :: 0 <= i < |[a] + bs| ==> size(([a] + bs)[i]) <= capacity;
    ContentsArePrefixOfStack(empty, [], [a] + bs, val, capacity, size);
    DistinctStack(a, bs);
    var s := Replayed(empty, [a] + bs, val, size);
    OrderIsContents(s, capacity, size);
    WithinCapacity(s, capacity, size);
    hide *;
    PrefixWithLast(s.policy.order, Reverse(bs), a);
    WeightOfWhole(bs, a, z, size);
  }

  lemma WithinCapacity(s: CacheState, capacity: int, size: Key -> nat)
    requires Driven(s, capacity, size)
    ensures Weight(s.policy.order, size) <= capacity
  {
    DrivenWeight(s, capacity, size);
  }

  lemma NewIsDriven(capacity: int, size: Key -> nat)
    requires SafeCapacity(capacity)
    ensures Driven(NewCache(capacity, LruKind), capacity, size) && NewCache(capacity, LruKind).policy.order == []
  {
    NewCacheIsSound(capacity, LruKind);
  }

  /** Objects that fit only the larger cache: the smaller one refuses them and keeps what it has, while the
      larger one evicts for them. */
  lemma OversizedObjectsBreakInclusion(a: Key, bs: seq<Key>, z: nat, val: Value, capacity: int, larger: int,
                                       size: Key -> nat)
    requires NoDup(bs) && forall i :: 0 <= i < |bs| ==> bs[i] != a && size(bs[i]) == z
    requires size(a) <= capacity < z <= larger < size(a) + |bs| * z && larger < TWO_TO_THE_62
    ensures a in Contents([a] + bs, val, capacity, size)
    ensures a !in Contents([a] + bs, val, larger, size)
  {
    SmallerStillHolds(a, bs, val, capacity, size);
    if a in Contents([a] + bs, val, larger, size) {
      FirstStaysOnlyIfAllFit(a, bs, z, val, larger, size);
    }
  }

  // ---------- For which sizes inclusion holds ----------

  /** Keys "b", "bb", "bbb" and so on. */
  function ManyKeys(n: nat): seq<Key> {
    seq(n, i requires 0 <= i => seq(i + 1, _ => 'b'))
  }

  lemma ManyKeysDistinct(n: nat)
    ensures |ManyKeys(n)| == n && NoDup(ManyKeys(n)) && forall i :: 0 <= i < n ==> ManyKeys(n)[i] != ""
  {
    assert forall i :: 0 <= i < n ==> |ManyKeys(n)[i]| == i + 1;
  }

  ghost predicate SizesFrom(size: Key -> nat, z: iset<nat>) {
    forall key :: size(key) in z
  }

  /** Inclusion for all traces and all ways to give the keys sizes from `z`. */
  ghost predicate Inclusion(z: iset<nat>, val: Value, capacity: int, larger: int) {
    forall size: Key -> nat, trace: seq<Key> :: SizesFrom(size, z) ==>
      Contents(trace, val, capacity, size) <= Contents(trace, val, larger, size)
  }

  lemma InclusionBroken(z: iset<nat>, small: nat, between: nat, val: Value, capacity: int, larger: int)
    requires 0 <= capacity <= larger < TWO_TO_THE_62
    requires small in z && between in z && small <= capacity < between <= larger
    ensures !Inclusion(z, val, capacity, larger)
  {
    hide Contents, ManyKeys, NoDup;
    var size := TwoSizes(small, between);
    var bs := ManyKeys(larger + 1);
    ManyKeysDistinct(larger + 1);
    ManyWeighMore(larger, between);
    OversizedObjectsBreakInclusion("", bs, between, val, capacity, larger, size);
    assert SizesFrom(size, z);
  }

  function TwoSizes(small: nat, between: nat): Key -> nat {
    key => if key == "" then small else between
  }

  lemma ManyWeighMore(n: nat, z: nat)
    requires z >= 1
    ensures (n + 1) * z > n
  {
  }

  /** Inclusion holds exactly when no possible size lies between the two capacities, or when nothing fits
      the smaller cache at all. */
  lemma InclusionIff(z: iset<nat>, val: Value, capacity: int, larger: int)
    requires 0 <= capacity <= larger < TWO_TO_THE_62 && forall x :: x in z ==> x < TWO_TO_THE_63
    ensures Inclusion(z, val, capacity, larger)
            <==> (forall x :: x in z ==> !(capacity < x <= larger)) || (forall x :: x in z ==> capacity < x)
  {
    if forall x :: x in z ==> !(capacity < x <= larger) {
      forall size: Key -> nat, trace: seq<Key> | SizesFrom(size, z)
        ensures Contents(trace, val, capacity, size) <= Contents(trace, val, larger, size)
      {
        assert forall i :: 0 <= i < |trace| ==> size(trace[i]) in z;
        LargerLruNeverWorse(trace, val, capacity, larger, size);
      }
    } else if forall x :: x in z ==> capacity < x {
      forall size: Key -> nat, trace: seq<Key> | SizesFrom(size, z)
        ensures Contents(trace, val, capacity, size) <= Contents(trace, val, larger, size)
      {
        assert forall i :: 0 <= i < |trace| ==> size(trace[i]) in z;
        NewCacheIsSound(capacity, LruKind);
        OversizedReplay(NewCache(capacity, LruKind), trace, val, capacity, size);
      }
    } else {
      var between :| between in z && capacity < between <= larger;
      var small :| small in z && small <= capacity;
      InclusionBroken(z, small, between, val, capacity, larger);
    }
  }
}
