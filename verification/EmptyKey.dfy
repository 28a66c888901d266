/** What the empty key does to a Clock cache. Clock marks its free slots with that key, so once it is stored
    the policy has it in its index but in no slot the hand would stop at: nothing can evict it. */
module EmptyKey {
  import opened Base
  import opened Stores
  import opened Policies
  import opened CacheStates
  import opened CacheLaws
  import ClockLaws
  import R = ClockRuns
  import C = ClockStates

  type Ring = C.ClockState

  /** The ring `c` is the well-formed ring `r`, but for the empty key at one of its free slots. */
  ghost predicate Twin(c: Ring, r: Ring) {
    && C.Ring(r) && "" in c.index && c.index[""] < |r.slots| == |c.slots|
    && r.slots[c.index[""]] == C.EMPTY && c.slots[c.index[""]].key == ""
    && (forall i :: 0 <= i < |r.slots| && i != c.index[""] ==> c.slots[i] == r.slots[i])
    && c.index == r.index["" := c.index[""]]
    && c.hand == r.hand && c.live == r.live + 1
  }

  lemma PassTwin(c: Ring, r: Ring)
    requires Twin(c, r) && (r.slots[r.hand].key == "" || r.slots[r.hand].ref)
    ensures var x, y := c.slots[c.hand], r.slots[r.hand];
            Twin(C.Passed(c, if y.key == "" then x else x.(ref := false)), C.Passed(r, y.(ref := false)))
  {
    C.PassKeepsRing(r);
    hide C.Ring;
  }

  /** The hand goes the same way on both rings, and names the same victim. */
  lemma {:induction false} SweepTwin(c: Ring, r: Ring, steps: nat)
    requires Twin(c, r)
    ensures C.Swept(c, steps).1 == C.Swept(r, steps).1
    ensures Twin(C.Swept(c, steps).0, C.Swept(r, steps).0)
    decreases steps
  {
    var y := r.slots[r.hand];
    if steps > 0 && (y.key == "" || y.ref) {
      var x := c.slots[c.hand];
      var x' := if y.key == "" then x else x.(ref := false);
      PassTwin(c, r);
      assert x.key == y.key && (y.key == "" ==> y == y.(ref := false));
      SweepTwin(C.Passed(c, x'), C.Passed(r, y.(ref := false)), steps - 1);
    }
  }

  lemma {:induction false} SweepOfFree(r: Ring, steps: nat)
    requires forall i :: 0 <= i < |r.slots| ==> r.slots[i].key == ""
    ensures C.Swept(r, steps).1 == None
    decreases steps
  {
    if steps > 0 && r.hand < |r.slots| {
      SweepOfFree(C.Passed(r, r.slots[r.hand]), steps - 1);
    }
  }

  /** The victim is that of the well-formed ring; there is none when only the empty key is left. */
  lemma VictimTwin(c: Ring, r: Ring)
    requires Twin(c, r)
    ensures C.VictimOf(c).1 == C.VictimOf(r).1
    ensures r.live > 0 ==> Twin(C.VictimOf(c).0, C.VictimOf(r).0)
  {
    SweepTwin(c, r, 2 * |r.slots|);
    C.FullOrFree(r.slots);
    if r.live == 0 {
      SweepOfFree(r, 2 * |r.slots|);
    }
  }

  lemma RemoveTwin(c: Ring, r: Ring, key: Key)
    requires Twin(c, r) && key in r.index
    ensures Twin(C.Removed(c, key), C.Removed(r, key))
  {
    C.RemoveKeepsRing(r, key);
    assert r.index[key] != c.index[""] && key != "" && r.index[key] < |r.slots|;
    hide C.Ring;
    assert c.index[key] == r.index[key];
    assert r.index["" := c.index[""]] - {key} == (r.index - {key})["" := c.index[""]];
  }

  /** Storing the empty key in a well-formed ring. */
  lemma InsertTwin(s: Ring) returns (r: Ring)
    requires C.Ring(s)
    ensures Twin(C.Inserted(s, ""), r) && r.index == s.index
  {
    C.GrowKeepsRing(s);
    C.InsertFindsFree(s);
    assert C.InsertReturns(s, "") && "" !in s.index;
    hide C.Grown, C.InsertReturns;
    var g := C.Grown(s);
    r := g.(hand := C.Next(C.Probe(g.slots, g.hand, |g.slots|), |g.slots|));
  }

  // ---------- Insertions that never return ----------

  /** Every insertion of a run returns. */
  ghost predicate AllReturn(s: Ring, ops: seq<R.HookOp>)
    decreases |ops|
  {
    ops != [] ==>
      (ops[0].Insertion? ==> C.InsertReturns(s, ops[0].key)) && AllReturn(R.Applied(s, ops[0]), ops[1..])
  }

  ghost predicate InsertsFrom(ops: seq<R.HookOp>, keys: set<Key>) {
    forall i :: 0 <= i < |ops| && ops[i].Insertion? ==> ops[i].key in keys
  }

  lemma {:induction false} NonEmptyKeysReturn(s: Ring, ops: seq<R.HookOp>)
    requires C.Ring(s) && R.KeysNonEmpty(ops)
    ensures AllReturn(s, ops)
    decreases |ops|
  {
    if ops != [] {
      C.InsertFindsFree(s);
      R.HookKeepsRing(s, ops[0]);
      NonEmptyKeysReturn(R.Applied(s, ops[0]), ops[1..]);
    }
  }

  lemma AddReturning(s: Ring, op: R.HookOp, rest: seq<R.HookOp>)
    requires AllReturn(s, [op] + rest)
    ensures AllReturn(R.Applied(s, op), rest) && (op.Insertion? ==> C.InsertReturns(s, op.key))
  {
    assert ([op] + rest)[1..] == rest;
  }

  function Full(key: Key): C.Slot {
    C.Slot(key, true)
  }

  /** The empty key and one other, which share a slot once the ring has grown. */
  lemma SharedSlot(x: Key)
    requires x != ""
    ensures var s := C.Inserted(C.NEW_STATE, "");
            C.Inserted(s, x) == C.ClockState([Full(x), C.EMPTY], map["" := 0, x := 0], 1, 1)
  {
    var s := C.Inserted(C.NEW_STATE, "");
    assert C.Grown(C.NEW_STATE) == C.ClockState([C.EMPTY], map[], 0, 0) by {
      assert C.Packed([]) == [];
    }
    assert s == C.ClockState([Full("")], map["" := 0], 0, 1);
    assert C.Grown(s) == C.ClockState([C.EMPTY, C.EMPTY], map["" := 0], 0, 0) by {
      assert C.Packed(s.slots) == [] by {
        assert s.slots[..0] == [];
      }
    }
  }

  /** Removing the empty key then clears the other key's slot, and the live count falls behind. */
  lemma LiveFallsBehind(x: Key, y: Key)
    requires x != "" && y != "" && x != y
    ensures var s := C.Inserted(C.ClockState([Full(x), C.EMPTY], map["" := 0, x := 0], 1, 1), y);
            C.Removed(C.Removed(s, ""), x) == C.ClockState([C.EMPTY, Full(y)], map[y := 1], 0, 0)
  {
    var s0 := C.ClockState([Full(x), C.EMPTY], map["" := 0, x := 0], 1, 1);
    var s := C.Inserted(s0, y);
    assert C.Grown(s0) == s0 && C.Probe(s0.slots, 1, 2) == 1;
    assert s == C.ClockState([Full(x), Full(y)], map["" := 0, x := 0, y := 1], 0, 2);
    var t := C.Removed(s, "");
    assert t == C.ClockState([C.EMPTY, Full(y)], map[x := 0, y := 1], 0, 1) by {
      assert s.index - {""} == map[x := 0, y := 1];
    }
    assert t.index - {x} == map[y := 1];
  }

  lemma NoFreeSlot(x: Key, y: Key)
    requires x != "" && y != "" && x != y
    ensures !C.InsertReturns(C.Inserted(C.ClockState([C.EMPTY, Full(y)], map[y := 1], 0, 0), x), "")
  {
    var s := C.ClockState([C.EMPTY, Full(y)], map[y := 1], 0, 0);
    assert C.Grown(s) == s && C.Probe(s.slots, 0, 2) == 0;
    assert C.Inserted(s, x) == C.ClockState([Full(x), Full(y)], map[y := 1, x := 0], 1, 1);
    var t := C.Inserted(s, x);
    assert C.Grown(t) == t;
    assert forall p :: 0 <= p < 2 ==> t.slots[p].key != "";
  }

  /** A run of the empty key and two others, whose last insertion never returns. */
  function StuckRun(x: Key, y: Key): seq<R.HookOp> {
    [R.Insertion("")] + ([R.Insertion(x)] + ([R.Insertion(y)] +
    ([R.Removal("")] + ([R.Removal(x)] + ([R.Insertion(x)] + ([R.Insertion("")] + []))))))
  }

  lemma StuckRunStops(x: Key, y: Key)
    requires x != "" && y != "" && x != y
    ensures !AllReturn(C.NEW_STATE, StuckRun(x, y))
  {
    if AllReturn(C.NEW_STATE, StuckRun(x, y)) {
      var s0 := C.NEW_STATE;
      var s1 := C.Inserted(s0, "");
      var s2 := C.Inserted(s1, x);
      var s3 := C.Inserted(s2, y);
      var s4 := C.Removed(s3, "");
      var s5 := C.Removed(s4, x);
      var s6 := C.Inserted(s5, x);
      SharedSlot(x);
      LiveFallsBehind(x, y);
      NoFreeSlot(x, y);
      hide C.Inserted, C.Removed, C.InsertReturns, AllReturn;
      var r6 := [R.Insertion("")] + [];
      var r5 := [R.Insertion(x)] + r6;
      var r4 := [R.Removal(x)] + r5;
      var r3 := [R.Removal("")] + r4;
      var r2 := [R.Insertion(y)] + r3;
      var r1 := [R.Insertion(x)] + r2;
      AddReturning(s0, R.Insertion(""), r1);
      AddReturning(s1, R.Insertion(x), r2);
      AddReturning(s2, R.Insertion(y), r3);
      AddReturning(s3, R.Removal(""), r4);
      AddReturning(s4, R.Removal(x), r5);
      AddReturning(s5, R.Insertion(x), r6);
      AddReturning(s6, R.Insertion(""), []);
      assert false;
    }
  }

  /** In every run from a new Clock whose inserted keys come from `keys`, every insertion returns if and only
      if the empty key is not one of them. */
  lemma InsertionsReturnIff(keys: set<Key>, x: Key, y: Key)
    requires x in keys && y in keys && x != "" && y != "" && x != y
    ensures (forall ops :: InsertsFrom(ops, keys) ==> AllReturn(C.NEW_STATE, ops)) <==> "" !in keys
  {
    hide *;
    if "" in keys {
      StuckRunStops(x, y);
      StuckRunInserts(x, y, keys);
    } else {
      forall ops | InsertsFrom(ops, keys)
        ensures AllReturn(C.NEW_STATE, ops)
      {
        NewRingHasNoKeys(ops, keys);
        NonEmptyKeysReturn(C.NEW_STATE, ops);
      }
    }
  }

  lemma StuckRunInserts(x: Key, y: Key, keys: set<Key>)
    requires x in keys && y in keys && "" in keys
    ensures InsertsFrom(StuckRun(x, y), keys)
  {
  }

  lemma NewRingHasNoKeys(ops: seq<R.HookOp>, keys: set<Key>)
    requires InsertsFrom(ops, keys) && "" !in keys
    ensures C.Ring(C.NEW_STATE) && R.KeysNonEmpty(ops)
  {
  }

  // ---------- The cache ----------

  /** A Clock cache that holds the empty key and is coherent otherwise. */
  ghost predicate Spoilt(u: CacheState, r: Ring) {
    && SafeCapacity(u.store.capacity) && Accounted(u.store)
    && u.policy.ClockPolicy? && Twin(u.policy.clock, r)
    && r.index.Keys + {""} == u.store.items.Keys
  }

  lemma {:induction false} StoringEmptyKeySpoils(s: CacheState, val: Value, size: int) returns (r: Ring)
    requires Sound(s) && s.policy.ClockPolicy? && IsInt64(size) && !Stored(s, "", val, size).1.Refused?
    ensures Spoilt(Stored(s, "", val, size).0, r)
    ensures Stored(s, "", val, size).0.store.items[""].size == size
    ensures Stored(s, "", val, size).0.store.capacity == s.store.capacity
    decreases |s.store.items|
  {
    InsertKeepsAccounts(s.store, "", val, size);
    if !Stores.Inserted(s.store, "", val, size).1.Refused? {
      r := InsertTwin(s.policy.clock);
      assert Stores.Inserted(s.store, "", val, size).0.items.Keys == s.store.items.Keys + {""};
      hide Twin, C.Inserted;
    } else {
      EvictionIsSound(s);
      EvictionShrinks(s);
      assert Stored(s, "", val, size) == Stored(EvictedOne(s).0, "", val, size);
      hide Sound, Spoilt, Stored, EvictedOne;
      r := StoringEmptyKeySpoils(EvictedOne(s).0, val, size);
    }
  }

  lemma TwoEntriesWithinBytes(s: StoreState, a: Key, b: Key)
    requires Accounted(s) && a in s.items && b in s.items && a != b
    ensures s.items[a].size + s.items[b].size <= s.bytes
  {
    var rest := s.items - {a};
    SumSplit(Sizes(s.items), a);
    assert Sizes(rest) == Sizes(s.items) - {a};
    SumSplit(Sizes(rest), b);
    SumNonNegative(Sizes(rest) - {b});
  }

  lemma EvictTwin(c: Ring, r: Ring) returns (v: Key, r': Ring)
    requires Twin(c, r) && r.live > 0
    ensures C.VictimOf(c).1 == Some(v) && v in r.index && v != ""
    ensures Twin(C.Removed(C.VictimOf(c).0, v), r') && r'.index.Keys == r.index.Keys - {v}
  {
    VictimTwin(c, r);
    ClockLaws.VictimKeepsRing(r);
    C.LiveCountsKeys(r);
    assert r.index != map[];
    v := C.VictimOf(r).1.value;
    r' := C.Removed(C.VictimOf(r).0, v);
    hide Twin, C.VictimOf;
    RemoveTwin(C.VictimOf(c).0, C.VictimOf(r).0, v);
    C.RemoveKeepsRing(C.VictimOf(r).0, v);
  }

  lemma EvictSpoilt(u: CacheState, r: Ring) returns (r': Ring)
    requires Spoilt(u, r) && r.live > 0
    ensures EvictedOne(u).1 && Spoilt(EvictedOne(u).0, r')
    ensures EvictedOne(u).0.store.items[""] == u.store.items[""]
    ensures EvictedOne(u).0.store.capacity == u.store.capacity
  {
    hide Twin, Accounted, C.VictimOf, C.Removed, EvictedOne;
    var v;
    v, r' := EvictTwin(u.policy.clock, r);
    assert v in u.store.items.Keys;
    ClockEvicts(u, v);
    RemoveKeepsAccounts(u.store, v);
    assert (u.store.items - {v}).Keys == u.store.items.Keys - {v};
  }

  lemma ClockEvicts(u: CacheState, v: Key)
    requires u.policy.ClockPolicy? && C.VictimOf(u.policy.clock).1 == Some(v) && v in u.store.items
    ensures EvictedOne(u).1 && EvictedOne(u).0.store == Stores.Removed(u.store, v)
    ensures EvictedOne(u).0.policy == ClockPolicy(C.Removed(C.VictimOf(u.policy.clock).0, v))
  {
  }

  lemma OnlyEmptyKeyLeft(u: CacheState, r: Ring)
    requires Spoilt(u, r) && r.live == 0
    ensures u.store.items.Keys == {""} && u.store.bytes == u.store.items[""].size && !EvictedOne(u).1
  {
    VictimTwin(u.policy.clock, r);
    C.LiveCountsKeys(r);
    assert r.index.Keys == {};
    SumSplit(Sizes(u.store.items), "");
    assert Sizes(u.store.items) - {""} == map[];
  }

  lemma {:induction false} PutBesideEmptyKey(u: CacheState, r: Ring, key: Key, val: Value, size: int)
    requires Spoilt(u, r) && key != "" && 0 <= size <= u.store.capacity
    ensures !Stored(u, key, val, size).1.Refused? <==> u.store.items[""].size + size <= u.store.capacity
    decreases |u.store.items|
  {
    InsertKeepsAccounts(u.store, key, val, size);
    assert "" in u.store.items.Keys;
    if Fits(u.store, key, size) {
      if key in u.store.items {
        TwoEntriesWithinBytes(u.store, "", key);
      } else {
        EntryWithinBytes(u.store, "");
      }
    } else if r.live > 0 {
      var r' := EvictSpoilt(u, r);
      EvictionShrinks(u);
      assert Stored(u, key, val, size) == Stored(EvictedOne(u).0, key, val, size);
      PutBesideEmptyKey(EvictedOne(u).0, r', key, val, size);
    } else {
      C.LiveCountsKeys(r);
      OnlyEmptyKeyLeft(u, r);
    }
  }

  /** Once a coherent Clock cache has stored the empty key, the bytes of that object are lost to all others:
      the next Put of another key succeeds exactly when its object fits beside it. */
  lemma EmptyKeyKeepsItsBytes(s: CacheState, val: Value, size: int, other: Key, val': Value, size': int)
    requires Sound(s) && s.policy.ClockPolicy? && IsInt64(size) && !Stored(s, "", val, size).1.Refused?
    requires other != "" && IsInt64(size')
    ensures var t := Stored(s, "", val, size).0;
            !Stored(t, other, val', size').1.Refused? <==> 0 <= size' && size + size' <= s.store.capacity
  {
    var t := Stored(s, "", val, size).0;
    var r := StoringEmptyKeySpoils(s, val, size);
    assert "" in t.store.items.Keys && 0 <= size;
    if 0 <= size' <= s.store.capacity {
      PutBesideEmptyKey(t, r, other, val', size');
    } else {
      InsertKeepsAccounts(t.store, other, val', size');
    }
  }

  /** On a Clock cache filled by one key, the next Put of a full-size object succeeds exactly when that
      first key is not the empty string. */
  lemma ClockNeedsNonEmptyKeys(first: Key, second: Key, val: Value, capacity: int)
    requires first != second && second != "" && 0 < capacity && SafeCapacity(capacity)
    ensures var s := Stored(NewCache(capacity, ClockKind), first, val, capacity).0;
            !Stored(s, second, val, capacity).1.Refused? <==> first != ""
  {
    var empty := NewCache(capacity, ClockKind);
    NewCacheIsSound(capacity, ClockKind);
    PutSucceedsIff(empty, first, val, capacity);
    if first == "" {
      EmptyKeyKeepsItsBytes(empty, val, capacity, second, val, capacity);
    } else {
      PutIsSound(empty, first, val, capacity);
      PutSucceedsIff(Stored(empty, first, val, capacity).0, second, val, capacity);
      var n := PutEvictsShortestRun(empty, first, val, capacity);
    }
  }
}
