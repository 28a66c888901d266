/** cache/store.go: the map of resident objects with its byte and key-byte counters. */
module Stores {
  import opened Base

  datatype Error = InvalidSize | ObjectTooLarge | CapacityExceeded

  datatype Resident = Resident(value: Value, size: int, accessCount: nat)

  datatype StoreState = StoreState(items: map<Key, Resident>, bytes: int, keyBytes: int, capacity: int)

  /** What an insertion did: nothing, a new entry, or an update in place of an entry of `oldSize` bytes. */
  datatype Placement = Refused(error: Error) | Added | Replaced(oldSize: int)

  function NewState(capacity: int): StoreState {
    StoreState(map[], 0, 0, capacity)
  }

  /** The byte count an insertion would lead to, as int64 arithmetic computes it. */
  function Projected(s: StoreState, key: Key, size: int): int {
    var projected := Wrap64(s.bytes + size);
    if key in s.items then Wrap64(projected - s.items[key].size) else projected
  }

  function Inserted(s: StoreState, key: Key, val: Value, size: int): (StoreState, Placement) {
    if size < 0 then (s, Refused(InvalidSize))
    else if size > s.capacity then (s, Refused(ObjectTooLarge))
    else if Projected(s, key, size) > s.capacity then (s, Refused(CapacityExceeded))
    else if key in s.items then
      var prev := s.items[key];
      (s.(items := s.items[key := Resident(val, size, Inc32(prev.accessCount))],
          bytes := Wrap64(Wrap64(s.bytes - prev.size) + size)),
       Replaced(prev.size))
    else
      (s.(items := s.items[key := Resident(val, size, 1)],
          bytes := Wrap64(s.bytes + size),
          keyBytes := s.keyBytes + |key|),
       Added)
  }

  function Touched(s: StoreState, key: Key): StoreState {
    if key !in s.items then s
    else
      var prev := s.items[key];
      s.(items := s.items[key := prev.(accessCount := Inc32(prev.accessCount))])
  }

  function Removed(s: StoreState, key: Key): StoreState {
    if key !in s.items then s
    else
      s.(items := s.items - {key},
         bytes := Wrap64(s.bytes - s.items[key].size),
         keyBytes := s.keyBytes - |key|)
  }

  function Cleared(s: StoreState): StoreState {
    s.(items := map[], bytes := 0, keyBytes := 0)
  }

  // ---------- Exact accounting ----------

  ghost function Sizes(items: map<Key, Resident>): map<Key, int> {
    map k | k in items :: items[k].size
  }

  ghost function KeyLengths(items: map<Key, Resident>): map<Key, int> {
    map k | k in items :: |k|
  }

  /** The counters are the sums they stand for, no entry has a negative size, and the capacity holds. */
  ghost predicate Accounted(s: StoreState) {
    && s.bytes == Sum(Sizes(s.items))
    && s.keyBytes == Sum(KeyLengths(s.items))
    && (forall k :: k in s.items ==> 0 <= s.items[k].size <= s.capacity)
    && 0 <= s.bytes <= s.capacity
  }

  predicate SafeCapacity(capacity: int) {
    0 <= capacity < TWO_TO_THE_62
  }

  lemma EntryWithinBytes(s: StoreState, key: Key)
    requires Accounted(s) && key in s.items
    ensures s.items[key].size <= s.bytes
  {
    SumSplit(Sizes(s.items), key);
    SumNonNegative(Sizes(s.items) - {key});
  }

  lemma ReplacingKeepsSums(items: map<Key, Resident>, key: Key, r: Resident)
    ensures Sum(Sizes(items[key := r])) == Sum(Sizes(items)) - (if key in items then items[key].size else 0) + r.size
    ensures Sum(KeyLengths(items[key := r])) == Sum(KeyLengths(items)) + (if key in items then 0 else |key|)
  {
    SumUpdate(Sizes(items), key, r.size);
    assert Sizes(items[key := r]) == Sizes(items)[key := r.size];
    SumUpdate(KeyLengths(items), key, |key|);
    assert KeyLengths(items[key := r]) == KeyLengths(items)[key := |key|];
  }

  /** Insertion keeps the accounting exact, and it is refused exactly when the true (unwrapped)
      total would exceed the capacity. */
  lemma InsertKeepsAccounts(s: StoreState, key: Key, val: Value, size: int)
    requires Accounted(s) && SafeCapacity(s.capacity) && IsInt64(size)
    ensures Accounted(Inserted(s, key, val, size).0)
    ensures var oldSize := if key in s.items then s.items[key].size else 0;
            Inserted(s, key, val, size).1 ==
              if size < 0 then Refused(InvalidSize)
              else if size > s.capacity then Refused(ObjectTooLarge)
              else if s.bytes - oldSize + size > s.capacity then Refused(CapacityExceeded)
              else if key in s.items then Replaced(oldSize) else Added
    ensures !Inserted(s, key, val, size).1.Refused? ==>
              Inserted(s, key, val, size).0.bytes == s.bytes - (if key in s.items then s.items[key].size else 0) + size
  {
    if key in s.items {
      EntryWithinBytes(s, key);
    }
    var (s', placed) := Inserted(s, key, val, size);
    if !placed.Refused? {
      ReplacingKeepsSums(s.items, key, s'.items[key]);
      assert s'.items == s.items[key := s'.items[key]];
    }
  }

  lemma RemoveKeepsAccounts(s: StoreState, key: Key)
    requires Accounted(s) && SafeCapacity(s.capacity)
    ensures Accounted(Removed(s, key))
    ensures key in s.items ==> Removed(s, key).bytes == s.bytes - s.items[key].size
  {
    if key in s.items {
      EntryWithinBytes(s, key);
      SumSplit(Sizes(s.items), key);
      SumSplit(KeyLengths(s.items), key);
      assert Sizes(s.items - {key}) == Sizes(s.items) - {key};
      assert KeyLengths(s.items - {key}) == KeyLengths(s.items) - {key};
    }
  }

  lemma TouchKeepsAccounts(s: StoreState, key: Key)
    requires Accounted(s)
    ensures Accounted(Touched(s, key))
  {
    assert Sizes(Touched(s, key).items) == Sizes(s.items);
    assert KeyLengths(Touched(s, key).items) == KeyLengths(s.items);
  }

  // ---------- For which capacities the accounting is exact ----------

  datatype StoreOp = Insertion(key: Key, val: Value, size: int) | Touching(key: Key) | Removal(key: Key) | Clearing

  function Applied(s: StoreState, op: StoreOp): StoreState {
    match op
    case Insertion(key, val, size) => Inserted(s, key, val, size).0
    case Touching(key) => Touched(s, key)
    case Removal(key) => Removed(s, key)
    case Clearing => Cleared(s)
  }

  function AllApplied(s: StoreState, ops: seq<StoreOp>): StoreState
    decreases |ops|
  {
    if ops == [] then s else AllApplied(Applied(s, ops[0]), ops[1..])
  }

  ghost predicate Int64Sizes(ops: seq<StoreOp>) {
    forall i :: 0 <= i < |ops| && ops[i].Insertion? ==> IsInt64(ops[i].size)
  }

  lemma {:induction false} RunKeepsAccounts(s: StoreState, ops: seq<StoreOp>)
    requires Accounted(s) && SafeCapacity(s.capacity) && Int64Sizes(ops)
    ensures Accounted(AllApplied(s, ops))
    decreases |ops|
  {
    if ops != [] {
      match ops[0] {
        case Insertion(key, val, size) => InsertKeepsAccounts(s, key, val, size);
        case Touching(key) => TouchKeepsAccounts(s, key);
        case Removal(key) => RemoveKeepsAccounts(s, key);
        case Clearing =>
      }
      RunKeepsAccounts(Applied(s, ops[0]), ops[1..]);
    }
  }

  /** Two objects as large as the whole cache: beyond 2^62 the projected total wraps to a negative
      number, both are admitted, and the byte counter goes wrong. */
  lemma HugeCapacityBreaksAccounts(capacity: int)
    requires IsInt64(capacity) && TWO_TO_THE_62 <= capacity
    ensures var ops := [Insertion("a", [], capacity), Insertion("b", [], capacity)];
            Int64Sizes(ops) && AllApplied(NewState(capacity), ops).bytes < 0
  {
    var first, second := Insertion("a", [], capacity), Insertion("b", [], capacity);
    var s1 := Applied(NewState(capacity), first);
    assert s1.bytes == capacity && "b" !in s1.items by {
      assert "a"[0] != "b"[0];
    }
    var s2 := Applied(s1, second);
    assert s2.bytes == 2 * capacity - TWO_TO_THE_64;
    assert [first, second][1..] == [second] && [second][1..] == [];
    assert AllApplied(s1, [second]) == s2;
  }

  /** The accounting is exact over every run of store calls exactly for the capacities in [0, 2^62). */
  lemma AccountsExactIffSafeCapacity(capacity: int)
    requires IsInt64(capacity)
    ensures (forall ops :: Int64Sizes(ops) ==> Accounted(AllApplied(NewState(capacity), ops)))
            <==> SafeCapacity(capacity)
  {
    if SafeCapacity(capacity) {
      forall ops | Int64Sizes(ops)
        ensures Accounted(AllApplied(NewState(capacity), ops))
      {
        RunKeepsAccounts(NewState(capacity), ops);
      }
    } else if capacity < 0 {
      assert Int64Sizes([]) && !Accounted(AllApplied(NewState(capacity), []));
    } else {
      HugeCapacityBreaksAccounts(capacity);
    }
  }

  // ---------- The store itself ----------

  /** types.Entry: the store's record for one key, shared by pointer and updated in place. */
  class Entry {
    const key: Key
    var value: Value
    var size: int
    var accessCount: nat

    constructor (key: Key, value: Value, size: int)
      ensures this.key == key && this.value == value && this.size == size && accessCount == 1
    {
      this.key, this.value, this.size, accessCount := key, value, size, 1;
    }

    function View(): Resident
      reads this
    {
      Resident(value, size, accessCount)
    }
  }

  function KeysOf(entries: seq<Entry>): seq<Key> {
    seq(|entries|, i requires 0 <= i < |entries| => entries[i].key)
  }

  class Store {
    var items: map<Key, Entry>
    var bytes: int
    var keyBytes: int
    const capacity: int

    ghost predicate Valid()
      reads this
    {
      forall k :: k in items ==> items[k].key == k
    }

    function Repr(): set<object>
      reads this
    {
      {this} + items.Values
    }

    ghost function View(): StoreState
      reads this, items.Values
    {
      StoreState(map k | k in items :: items[k].View(), bytes, keyBytes, capacity)
    }

    constructor (capacity: int)
      ensures Valid() && View() == NewState(capacity) && fresh(Repr())
    {
      items, bytes, keyBytes, this.capacity := map[], 0, 0, capacity;
    }

    method Touch(key: Key) returns (e: Entry?)
      requires Valid()
      modifies items.Values
      ensures Valid() && items == old(items) && View() == Touched(old(View()), key)
      ensures if key in old(View()).items then e != null && key in View().items && e.View() == View().items[key]
              else e == null
    {
      if key !in items {
        return null;
      }
      e := items[key];
      e.accessCount := Inc32(e.accessCount);
    }

    method Insert(key: Key, val: Value, size: int) returns (e: Entry?, err: Option<Error>)
      requires Valid()
      modifies this, items.Values
      ensures Valid() && fresh(Repr() - old(Repr()))
      ensures View() == Inserted(old(View()), key, val, size).0
      ensures var placed := Inserted(old(View()), key, val, size).1;
              if placed.Refused? then err == Some(placed.error) && View() == old(View()) else err == None
      ensures if err.None? then key in items && e == items[key] else e == null
    {
      if size < 0 {
        return null, Some(InvalidSize);
      }
      if size > capacity {
        return null, Some(ObjectTooLarge);
      }
      var projected := Wrap64(bytes + size);
      if key in items {
        projected := Wrap64(projected - items[key].size);
      }
      if projected > capacity {
        return null, Some(CapacityExceeded);
      }
      if key in items {
        e := Replace(key, val, size);
      } else {
        e := Admit(key, val, size);
      }
      return e, None;
    }

    /** Updates a resident entry in place. */
    method Replace(key: Key, val: Value, size: int) returns (existing: Entry)
      requires Valid() && key in items
      modifies this`bytes, items.Values
      ensures Valid() && items == old(items) && existing == items[key]
      ensures var prev := old(View());
              View() == prev.(items := prev.items[key := Resident(val, size, Inc32(prev.items[key].accessCount))],
                              bytes := Wrap64(Wrap64(prev.bytes - prev.items[key].size) + size))
    {
      existing := items[key];
      bytes := Wrap64(bytes - existing.size);
      existing.value := val;
      existing.size := size;
      existing.accessCount := Inc32(existing.accessCount);
      bytes := Wrap64(bytes + size);
    }

    /** Adds an entry for a missing key. */
    method Admit(key: Key, val: Value, size: int) returns (e: Entry)
      requires Valid() && key !in items
      modifies this
      ensures Valid() && fresh(e) && items == old(items)[key := e]
      ensures var prev := old(View());
              View() == prev.(items := prev.items[key := Resident(val, size, 1)],
                              bytes := Wrap64(prev.bytes + size), keyBytes := prev.keyBytes + |key|)
    {
      e := new Entry(key, val, size);
      items := items[key := e];
      bytes := Wrap64(bytes + size);
      keyBytes := keyBytes + |key|;
    }

    method Remove(key: Key) returns (e: Entry?)
      requires Valid()
      modifies this
      ensures Valid() && View() == Removed(old(View()), key) && Repr() <= old(Repr())
      ensures if key in old(View()).items then e != null && e.View() == old(View()).items[key]
              else e == null && View() == old(View())
    {
      if key !in items {
        return null;
      }
      e := items[key];
      items := items - {key};
      bytes := Wrap64(bytes - e.size);
      keyBytes := keyBytes - |key|;
    }

    /** A snapshot of the resident entries, in map order. */
    method Entries() returns (out: seq<Entry>)
      requires Valid()
      ensures Lists(KeysOf(out), View().items.Keys)
      ensures forall i :: 0 <= i < |out| ==>
                out[i].key in View().items && View().items[out[i].key] == out[i].View()
    {
      var order := RangeOrder(items.Keys);
      out := [];
      for i := 0 to |order|
        invariant |out| == i
        invariant forall j :: 0 <= j < i ==> order[j] in items && out[j] == items[order[j]]
      {
        assert order[i] in Elems(order);
        out := out + [items[order[i]]];
      }
      assert forall j :: 0 <= j < |order| ==> order[j] in items && out[j].key == order[j];
      assert KeysOf(out) == order;
    }

    method Clear()
      modifies this
      ensures Valid() && View() == Cleared(old(View())) && Repr() <= old(Repr())
    {
      items, bytes, keyBytes := map[], 0, 0;
    }
  }
}
