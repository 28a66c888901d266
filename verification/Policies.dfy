/** cache/policy/policy.go: what the cache core relies on from an eviction policy, whichever it is. */
module Policies {
  import opened Base
  import Lru
  import LfuStates
  import LfuLaws
  import ClockStates
  import ClockLaws
  import ClockRuns

  datatype Policy =
    | NoPolicy
    | LruPolicy(order: seq<Key>)
    | LfuPolicy(lfu: LfuStates.LfuState)
    | ClockPolicy(clock: ClockStates.ClockState)

  /** A policy to install, with the ageing period of an LFU. */
  datatype Kind = NoKind | LruKind | LfuKind(ageMax: nat) | ClockKind

  function Empty(kind: Kind): Policy {
    match kind
    case NoKind => NoPolicy
    case LruKind => LruPolicy([])
    case LfuKind(ageMax) => LfuPolicy(LfuStates.NewState(ageMax))
    case ClockKind => ClockPolicy(ClockStates.NEW_STATE)
  }

  function Accessed(p: Policy, key: Key, visit: seq<nat>): Policy {
    match p
    case NoPolicy => p
    case LruPolicy(order) => LruPolicy(Lru.Accessed(order, key))
    case LfuPolicy(s) => LfuPolicy(LfuStates.Accessed(s, key, visit))
    case ClockPolicy(s) => ClockPolicy(ClockStates.Marked(s, key))
  }

  function Inserted(p: Policy, key: Key): Policy {
    match p
    case NoPolicy => p
    case LruPolicy(order) => LruPolicy(Lru.Inserted(order, key))
    case LfuPolicy(s) => LfuPolicy(LfuStates.Inserted(s, key))
    case ClockPolicy(s) => ClockPolicy(ClockStates.Inserted(s, key))
  }

  function Removed(p: Policy, key: Key): Policy {
    match p
    case NoPolicy => p
    case LruPolicy(order) => LruPolicy(Without(order, key))
    case LfuPolicy(s) => LfuPolicy(LfuStates.Removed(s, key))
    case ClockPolicy(s) => ClockPolicy(ClockStates.Removed(s, key))
  }

  ghost function VictimOf(p: Policy): (Policy, Option<Key>) {
    match p
    case NoPolicy => (p, None)
    case LruPolicy(order) => (p, Lru.VictimOf(order))
    case LfuPolicy(s) => (p, if LfuStates.Bucketed(s) then LfuStates.VictimOf(s) else None)
    case ClockPolicy(s) => var (t, victim) := ClockStates.VictimOf(s); (ClockPolicy(t), victim)
  }

  /** Reset and Rebuild: a policy of this kind that adopts the given keys and access counts. */
  function Rebuilt(kind: Kind, entries: seq<(Key, nat)>): Policy {
    match kind
    case NoKind => NoPolicy
    case LruKind => LruPolicy(Reverse(KeysIn(entries)))
    case LfuKind(ageMax) => LfuPolicy(LfuStates.Rebuilt(LfuStates.NewState(ageMax), entries))
    case ClockKind => ClockPolicy(ClockStates.Rebuilt(KeysIn(entries)))
  }

  function Tracked(p: Policy): set<Key> {
    match p
    case NoPolicy => {}
    case LruPolicy(order) => Elems(order)
    case LfuPolicy(s) => s.freq.Keys
    case ClockPolicy(s) => s.index.Keys
  }

  ghost predicate Inv(p: Policy) {
    match p
    case NoPolicy => true
    case LruPolicy(order) => NoDup(order)
    case LfuPolicy(s) => LfuStates.Inv(s)
    case ClockPolicy(s) => ClockStates.Ring(s)
  }

  /** Clock marks free slots with the empty string, so it cannot hold that key. */
  predicate Accepts(p: Policy, key: Key) {
    p.ClockPolicy? ==> key != ""
  }

  /** Whether OnInsert returns: on a ring that the empty key has spoilt, Clock's probe may not. */
  predicate InsertReturns(p: Policy, key: Key) {
    p.ClockPolicy? ==> ClockStates.InsertReturns(p.clock, key)
  }

  ghost predicate VisitOf(p: Policy, key: Key, visit: seq<nat>) {
    p.LfuPolicy? ==> LfuStates.VisitOf(p.lfu, key, visit)
  }

  // ---------- The contract of every hook, for every policy ----------

  lemma AccessContract(p: Policy, key: Key, visit: seq<nat>)
    requires Inv(p) && VisitOf(p, key, visit)
    ensures Inv(Accessed(p, key, visit)) && Tracked(Accessed(p, key, visit)) == Tracked(p)
  {
    match p
    case NoPolicy =>
    case LruPolicy(order) => Lru.HooksKeepDistinctKeys(order, key);
    case LfuPolicy(s) => LfuLaws.AccessKeepsInv(s, key, visit);
    case ClockPolicy(s) => ClockStates.MarkKeepsRing(s, key);
  }

  lemma InsertContract(p: Policy, key: Key)
    requires Inv(p) && p != NoPolicy
    ensures Inv(Inserted(p, key)) <==> Accepts(p, key)
    ensures Tracked(Inserted(p, key)) == Tracked(p) + {key}
  {
    match p
    case LruPolicy(order) => Lru.HooksKeepDistinctKeys(order, key);
    case LfuPolicy(s) => LfuLaws.InsertKeepsInv(s, key);
    case ClockPolicy(s) => ClockStates.InsertKeepsRing(s, key);
  }

  lemma InsertAlwaysReturns(p: Policy, key: Key)
    requires Inv(p)
    ensures InsertReturns(p, key)
  {
    if p.ClockPolicy? {
      ClockStates.InsertFindsFree(p.clock);
    }
  }

  lemma RemoveContract(p: Policy, key: Key)
    requires Inv(p)
    ensures Inv(Removed(p, key)) && Tracked(Removed(p, key)) == Tracked(p) - {key}
  {
    match p
    case NoPolicy =>
    case LruPolicy(order) => Lru.HooksKeepDistinctKeys(order, key);
    case LfuPolicy(s) => LfuLaws.RemoveKeepsInv(s, key);
    case ClockPolicy(s) => ClockStates.RemoveKeepsRing(s, key);
  }

  /** A policy names a victim exactly when it tracks a key, and then one that it tracks. */
  lemma VictimContract(p: Policy)
    requires Inv(p)
    ensures Inv(VictimOf(p).0) && Tracked(VictimOf(p).0) == Tracked(p)
    ensures VictimOf(p).0.NoPolicy? == p.NoPolicy? && VictimOf(p).0.ClockPolicy? == p.ClockPolicy?
    ensures VictimOf(p).1.None? <==> Tracked(p) == {}
    ensures VictimOf(p).1.Some? ==> VictimOf(p).1.value in Tracked(p)
  {
    match p
    case NoPolicy =>
    case LruPolicy(order) => assert order != [] ==> order[0] in Elems(order);
    case LfuPolicy(s) =>
      LfuLaws.VictimIsLeastFrequent(s);
      assert Tracked(p) == {} <==> s.freq == map[];
    case ClockPolicy(s) =>
      ClockLaws.VictimKeepsRing(s);
      assert Tracked(p) == {} <==> s.index == map[];
  }

  lemma RebuildContract(kind: Kind, entries: seq<(Key, nat)>)
    requires NoDup(KeysIn(entries)) && kind != NoKind
    ensures Inv(Rebuilt(kind, entries)) <==> (kind == ClockKind ==> "" !in KeysIn(entries))
    ensures Tracked(Rebuilt(kind, entries)) == Elems(KeysIn(entries))
    ensures Rebuilt(kind, entries) != NoPolicy
  {
    var keys := KeysIn(entries);
    match kind
    case LruKind => ReverseListsSame(keys);
    case LfuKind(ageMax) =>
      LfuLaws.RebuildAdopts(LfuStates.NewState(ageMax), entries);
      LfuLaws.InitialFreqsLookup(entries);
    case ClockKind => ClockStates.RebuildMakesRing(keys);
  }

  lemma ReverseListsSame(keys: seq<Key>)
    requires NoDup(keys)
    ensures NoDup(Reverse(keys)) && Elems(Reverse(keys)) == Elems(keys)
  {
    var r := Reverse(keys);
    forall k | k in keys
      ensures k in r
    {
      var i :| 0 <= i < |keys| && keys[i] == k;
      assert r[|keys| - 1 - i] == k;
    }
  }
}
