/** cache/policy/clock.go on values: the ring of slots, its index and the hand. */
module ClockStates {
  import opened Base

  /** An empty slot has the key "". */
  datatype Slot = Slot(key: Key, ref: bool)

  const EMPTY := Slot("", false)

  datatype ClockState = ClockState(slots: seq<Slot>, index: map<Key, nat>, hand: nat, live: int)

  /** Free slots. */
  function Blank(n: int): (r: seq<Slot>)
    ensures |r| == Max(0, n)
    ensures forall i :: 0 <= i < |r| ==> r[i] == EMPTY
  {
    if n <= 0 then [] else seq(n, _ => EMPTY)
  }

  const NEW_STATE := ClockState([], map[], 0, 0)

  function OccupiedBit(x: Slot): nat {
    if x.key != "" then 1 else 0
  }

  function RefBit(x: Slot): nat {
    if x.ref then 1 else 0
  }

  predicate IsPowerOfTwo(n: nat) {
    n == 1 || (n > 1 && n % 2 == 0 && IsPowerOfTwo(n / 2))
  }

  /** The index is a bijection onto the occupied slots, `live` counts them, the hand is on the ring. */
  ghost predicate Ring(s: ClockState) {
    && (forall k :: k in s.index ==> k != "" && s.index[k] < |s.slots| && s.slots[s.index[k]].key == k)
    && (forall i :: 0 <= i < |s.slots| ==>
          if s.slots[i].key == "" then s.slots[i] == EMPTY
          else s.slots[i].key in s.index && s.index[s.slots[i].key] == i)
    && s.live == Tally(s.slots, OccupiedBit)
    && if s.slots == [] then s.hand == 0 else s.hand < |s.slots| && IsPowerOfTwo(|s.slots|)
  }

  /** The next position on a ring of `cap` slots. */
  function Next(hand: nat, cap: nat): nat
  {
    if hand + 1 >= cap then 0 else hand + 1
  }

  function Marked(s: ClockState, key: Key): ClockState {
    if key in s.index && s.index[key] < |s.slots| then
      s.(slots := s.slots[s.index[key] := s.slots[s.index[key]].(ref := true)])
    else s
  }

  /** The occupied slots, moved together. */
  function Packed(slots: seq<Slot>): (r: seq<Slot>)
    ensures |r| <= |slots|
  {
    if slots == [] then []
    else
      var n := |slots| - 1;
      Packed(slots[..n]) + if slots[n].key == "" then [] else [slots[n]]
  }

  function Reindexed(index: map<Key, nat>, slots: seq<Slot>): map<Key, nat> {
    if slots == [] then index
    else
      var n := |slots| - 1;
      Reindexed(index, slots[..n])[slots[n].key := n]
  }

  /** A ring that counts as full doubles: its occupied slots are packed at the front, indexed and counted
      anew, and the hand goes to the first slot behind them. */
  function Grown(s: ClockState): ClockState {
    if s.live < |s.slots| then s
    else
      var kept := Packed(s.slots);
      ClockState(kept + Blank(Max(1, 2 * |s.slots|) - |kept|), Reindexed(s.index, kept), |kept|, |kept|)
  }

  /** The first empty position from `hand` on, looking at most `steps` slots ahead. */
  function Probe(slots: seq<Slot>, hand: nat, steps: nat): nat
    decreases steps
  {
    if steps == 0 || hand >= |slots| || slots[hand].key == "" then hand
    else Probe(slots, Next(hand, |slots|), steps - 1)
  }

  /** Whether an insertion returns: without a free slot its probe goes round for ever, since growing a second
      time changes nothing. */
  predicate InsertReturns(s: ClockState, key: Key) {
    key in s.index ||
    var g := Grown(s);
    var p := Probe(g.slots, g.hand, |g.slots|);
    p < |g.slots| && g.slots[p].key == ""
  }

  function Inserted(s: ClockState, key: Key): ClockState {
    if key in s.index then Marked(s, key)
    else
      var g := Grown(s);
      var p := Probe(g.slots, g.hand, |g.slots|);
      if InsertReturns(s, key) then
        ClockState(g.slots[p := Slot(key, true)], g.index[key := p], Next(p, |g.slots|), g.live + 1)
      else g
  }

  function Removed(s: ClockState, key: Key): ClockState {
    if key in s.index && s.index[key] < |s.slots| then
      s.(slots := s.slots[s.index[key] := EMPTY], index := s.index - {key}, live := s.live - 1)
    else s
  }

  /** One step of the hand, leaving `x` in the slot it passes. */
  function Passed(s: ClockState, x: Slot): ClockState
    requires s.hand < |s.slots|
  {
    s.(slots := s.slots[s.hand := x], hand := Next(s.hand, |s.slots|))
  }

  /** The victim walk, bounded by `steps` slots; then the source falls back to the slot under the hand. */
  function Swept(s: ClockState, steps: nat): (ClockState, Option<Key>)
    decreases steps
  {
    if s.hand >= |s.slots| then (s, None)
    else
      var x := s.slots[s.hand];
      if steps == 0 then (s, if x.key != "" then Some(x.key) else None)
      else if x.key == "" then Swept(Passed(s, x), steps - 1)
      else if x.ref then Swept(Passed(s, x.(ref := false)), steps - 1)
      else (s, Some(x.key))
  }

  function VictimOf(s: ClockState): (ClockState, Option<Key>) {
    if s.live == 0 then (s, None) else Swept(s, 2 * |s.slots|)
  }

  /** The batch walk: like the victim walk, but it passes the keys it picks and picks up to `n`. */
  function Gathered(s: ClockState, steps: nat, n: nat): (ClockState, seq<Key>)
    decreases steps
  {
    if steps == 0 || n == 0 || s.hand >= |s.slots| then (s, [])
    else
      var x := s.slots[s.hand];
      if x.key == "" then Gathered(Passed(s, x), steps - 1, n)
      else if x.ref then Gathered(Passed(s, x.(ref := false)), steps - 1, n)
      else
        var (t, out) := Gathered(Passed(s, x), steps - 1, n - 1);
        (t, [x.key] + out)
  }

  function CandidatesOf(s: ClockState, n: int): (ClockState, seq<Key>) {
    if n <= 0 || s.live == 0 then (s, []) else Gathered(s, 2 * |s.slots|, n)
  }

  /** The smallest power of two, from `cap` up, that holds `n` slots. */
  function CapFor(n: nat, cap: nat): nat
    requires cap >= 1
    decreases n - cap
  {
    if cap < n then CapFor(n, 2 * cap) else cap
  }

  function IndexOf(keys: seq<Key>): map<Key, nat> {
    if keys == [] then map[]
    else IndexOf(keys[..|keys| - 1])[keys[|keys| - 1] := |keys| - 1]
  }

  function Rebuilt(keys: seq<Key>): ClockState {
    var cap := CapFor(|keys|, 1);
    ClockState(seq(cap, i => if 0 <= i < |keys| then Slot(keys[i], false) else EMPTY), IndexOf(keys), 0, |keys|)
  }

  // ---------- Totals ----------

  lemma {:induction false} TallyOfEmpties(slots: seq<Slot>)
    requires forall i :: 0 <= i < |slots| ==> slots[i] == EMPTY
    ensures Tally(slots, OccupiedBit) == 0 && Tally(slots, RefBit) == 0
  {
    if slots != [] {
      TallyOfEmpties(slots[1..]);
    }
  }

  lemma {:induction false} FullOrFree(slots: seq<Slot>)
    ensures Tally(slots, OccupiedBit) <= |slots|
    ensures Tally(slots, OccupiedBit) == |slots| <==> forall i :: 0 <= i < |slots| ==> slots[i].key != ""
    ensures Tally(slots, OccupiedBit) == 0 <==> forall i :: 0 <= i < |slots| ==> slots[i].key == ""
  {
    if slots != [] {
      FullOrFree(slots[1..]);
      assert slots == [slots[0]] + slots[1..];
    }
  }

  ghost function KeysBelow(s: ClockState, n: nat): set<Key> {
    set k | k in s.index && s.index[k] < n
  }

  lemma KeyAtSlot(s: ClockState, i: nat)
    requires Ring(s) && i < |s.slots|
    ensures KeysBelow(s, i + 1) == KeysBelow(s, i) + if s.slots[i].key == "" then {} else {s.slots[i].key}
    ensures s.slots[i].key !in KeysBelow(s, i)
  {
    forall k | k in KeysBelow(s, i + 1) && k !in KeysBelow(s, i)
      ensures k == s.slots[i].key != ""
    {
    }
  }

  lemma {:induction false} IndexedBelow(s: ClockState, n: nat)
    requires Ring(s) && n <= |s.slots|
    ensures |KeysBelow(s, n)| == Tally(s.slots[..n], OccupiedBit)
  {
    if n > 0 {
      IndexedBelow(s, n - 1);
      KeyAtSlot(s, n - 1);
      assert s.slots[..n] == s.slots[..n - 1] + [s.slots[n - 1]];
      TallyAppend(s.slots[..n - 1], s.slots[n - 1], OccupiedBit);
      hide Ring, Tally, KeysBelow;
    } else {
      assert KeysBelow(s, 0) == {};
    }
  }

  /** `live` is the number of keys. */
  lemma LiveCountsKeys(s: ClockState)
    requires Ring(s)
    ensures |s.index| == s.live
  {
    IndexedBelow(s, |s.slots|);
    assert s.slots[..|s.slots|] == s.slots;
    assert KeysBelow(s, |s.slots|) == s.index.Keys;
  }

  // ---------- Hooks keep the ring ----------

  lemma MarkKeepsRing(s: ClockState, key: Key)
    requires Ring(s)
    ensures Ring(Marked(s, key)) && Marked(s, key).index == s.index
  {
    if key in s.index {
      var i := s.index[key];
      TallyUpdate(s.slots, i, s.slots[i].(ref := true), OccupiedBit);
    }
  }

  /** An access, and likewise a re-insertion, sets the bit of the key's slot and changes nothing else. */
  lemma MarkSetsBit(s: ClockState, key: Key)
    requires Ring(s) && key in s.index
    ensures s.index[key] < |s.slots|
    ensures Marked(s, key) == s.(slots := s.slots[s.index[key] := Slot(key, true)])
    ensures Inserted(s, key) == s.(slots := s.slots[s.index[key] := Slot(key, true)])
  {
  }

  /** A removal frees the key's slot and leaves the hand and all other slots where they are. */
  lemma RemoveKeepsRing(s: ClockState, key: Key)
    requires Ring(s)
    ensures Ring(Removed(s, key)) && Removed(s, key).index == s.index - {key}
    ensures Removed(s, key).index.Keys == s.index.Keys - {key}
    ensures Removed(s, key).hand == s.hand
    ensures Removed(s, key).live == s.live - if key in s.index then 1 else 0
    ensures Removed(s, key).slots == if key in s.index then s.slots[s.index[key] := EMPTY] else s.slots
  {
    if key in s.index {
      TallyUpdate(s.slots, s.index[key], EMPTY, OccupiedBit);
    }
  }

  lemma PassKeepsRing(s: ClockState)
    requires Ring(s) && s.slots != []
    ensures Ring(Passed(s, s.slots[s.hand].(ref := false)))
    ensures Passed(s, s.slots[s.hand].(ref := false)).index == s.index
  {
    TallyUpdate(s.slots, s.hand, s.slots[s.hand].(ref := false), OccupiedBit);
  }

  lemma {:induction false} FullPacks(slots: seq<Slot>)
    requires forall i :: 0 <= i < |slots| ==> slots[i].key != ""
    ensures Packed(slots) == slots
  {
    if slots != [] {
      FullPacks(slots[..|slots| - 1]);
    }
  }

  lemma {:induction false} ReindexedInPlace(index: map<Key, nat>, slots: seq<Slot>)
    requires forall i :: 0 <= i < |slots| ==> slots[i].key in index && index[slots[i].key] == i
    ensures Reindexed(index, slots) == index
  {
    if slots != [] {
      ReindexedInPlace(index, slots[..|slots| - 1]);
    }
  }

  /** Every slot of a well-formed ring that counts as full is occupied: growing it moves nothing. */
  lemma GrowthMovesNothing(s: ClockState)
    requires Ring(s)
    ensures s.live <= |s.slots|
    ensures Grown(s) == if s.live < |s.slots| then s
                        else s.(slots := s.slots + Blank(Max(1, |s.slots|)), hand := |s.slots|)
  {
    FullOrFree(s.slots);
    hide Tally, Packed, Reindexed;
    if s.live >= |s.slots| {
      FullPacks(s.slots);
      ReindexedInPlace(s.index, s.slots);
      assert Max(1, 2 * |s.slots|) - |s.slots| == Max(1, |s.slots|);
    }
  }

  lemma GrownWithRoom(s: ClockState)
    requires s.live < |s.slots|
    ensures Grown(s) == s
  {
  }

  lemma GrownWhenFull(s: ClockState)
    requires s.live >= |s.slots|
    ensures var kept := Packed(s.slots);
            && |kept| < Max(1, 2 * |s.slots|)
            && Grown(s) == ClockState(kept + Blank(Max(1, 2 * |s.slots|) - |kept|),
                                      Reindexed(s.index, kept), |kept|, |kept|)
  {
  }

  /** Growing leaves the live count below the capacity, so growing again does nothing, on any ring. */
  lemma RegrowthIsIdle(s: ClockState)
    ensures Grown(s).live < |Grown(s).slots| && Grown(Grown(s)) == Grown(s)
  {
  }

  /** A full ring with as many free slots behind it. */
  lemma DoubledIsRing(s: ClockState, blank: seq<Slot>)
    requires Ring(s) && s.live == |s.slots| && |blank| == Max(1, |s.slots|)
    requires forall i :: 0 <= i < |blank| ==> blank[i] == EMPTY
    ensures Ring(s.(slots := s.slots + blank, hand := |s.slots|))
  {
    TallyConcat(s.slots, blank, OccupiedBit);
    TallyOfEmpties(blank);
    hide Tally;
  }

  /** Growth keeps keys, bits and slot order, and leaves a free slot. */
  lemma GrowKeepsRing(s: ClockState)
    requires Ring(s)
    ensures Ring(Grown(s)) && Grown(s).index == s.index && Grown(s).live == s.live
    ensures s.slots <= Grown(s).slots
    ensures exists i :: 0 <= i < |Grown(s).slots| && Grown(s).slots[i].key == ""
    ensures s.live <= |s.slots|
    ensures |Grown(s).slots| == if s.live < |s.slots| then |s.slots| else Max(1, 2 * |s.slots|)
  {
    GrowthMovesNothing(s);
    FullOrFree(s.slots);
    RingCountsLive(s);
    hide Grown, Ring, Tally;
    if s.live >= |s.slots| {
      var blank := Blank(Max(1, |s.slots|));
      DoubledIsRing(s, blank);
      assert Grown(s).slots[|s.slots|] == blank[0];
    }
  }

  /** The probe ends at a free slot when there is one within its steps. */
  lemma {:induction false} ProbeFindsFree(slots: seq<Slot>, hand: nat, j: nat, steps: nat)
    requires hand < |slots| && j < steps && j < |slots|
    requires slots[if hand + j < |slots| then hand + j else hand + j - |slots|].key == ""
    ensures Probe(slots, hand, steps) < |slots| && slots[Probe(slots, hand, steps)].key == ""
    decreases j
  {
    if slots[hand].key != "" {
      ProbeFindsFree(slots, Next(hand, |slots|), j - 1, steps - 1);
    }
  }

  lemma FreeSlotIsFound(g: ClockState)
    requires Ring(g) && exists i :: 0 <= i < |g.slots| && g.slots[i].key == ""
    ensures var p := Probe(g.slots, g.hand, |g.slots|); p < |g.slots| && g.slots[p] == EMPTY
  {
    var i :| 0 <= i < |g.slots| && g.slots[i].key == "";
    ProbeFindsFree(g.slots, g.hand, if i >= g.hand then i - g.hand else i + |g.slots| - g.hand, |g.slots|);
  }

  lemma InsertFindsFree(s: ClockState)
    requires Ring(s)
    ensures var g := Grown(s); var p := Probe(g.slots, g.hand, |g.slots|);
            p < |g.slots| && g.slots[p] == EMPTY
    ensures forall key :: InsertReturns(s, key)
  {
    GrowKeepsRing(s);
    FreeSlotIsFound(Grown(s));
  }

  lemma PlacingKeepsRing(g: ClockState, p: nat, key: Key)
    requires Ring(g) && p < |g.slots| && g.slots[p] == EMPTY && key !in g.index && key != ""
    ensures Ring(ClockState(g.slots[p := Slot(key, true)], g.index[key := p], Next(p, |g.slots|), g.live + 1))
  {
    TallyUpdate(g.slots, p, Slot(key, true), OccupiedBit);
  }

  lemma TrackedKeyStays(s: ClockState, key: Key)
    requires Ring(s) && key in s.index
    ensures Ring(Inserted(s, key)) && Inserted(s, key).index == s.index && key != ""
  {
    MarkKeepsRing(s, key);
  }

  lemma NewKeyKeepsRing(s: ClockState, key: Key)
    requires Ring(s) && key !in s.index && key != ""
    ensures var t := Inserted(s, key);
            Ring(t) && t.index.Keys == s.index.Keys + {key} && t.live == s.live + 1 && |t.slots| == |Grown(s).slots|
  {
    GrowKeepsRing(s);
    InsertFindsFree(s);
    assert InsertReturns(s, key);
    hide Ring, Grown, InsertReturns;
    var g := Grown(s);
    PlacingKeepsRing(g, Probe(g.slots, g.hand, |g.slots|), key);
  }

  /** The empty key is placed in a slot that still counts as free. */
  lemma EmptyKeyBreaksRing(s: ClockState)
    requires Ring(s)
    ensures var t := Inserted(s, "");
            && !Ring(t) && t.index.Keys == s.index.Keys + {""} && t.live == s.live + 1 && |t.slots| == |Grown(s).slots|
            && t.live == Tally(t.slots, OccupiedBit) + 1
  {
    assert "" !in s.index;
    GrowKeepsRing(s);
    InsertFindsFree(s);
    RingCountsLive(Grown(s));
    assert InsertReturns(s, "");
    hide Grown, InsertReturns;
    var g := Grown(s);
    var p := Probe(g.slots, g.hand, |g.slots|);
    TallyUpdate(g.slots, p, Slot("", true), OccupiedBit);
    assert "" in Inserted(s, "").index;
  }

  /** A new key takes one free slot, with its bit set. The ring stays well formed exactly when that key is
      not the mark of a free slot; otherwise the live count runs ahead of the occupied slots. */
  lemma InsertKeepsRing(s: ClockState, key: Key)
    requires Ring(s)
    ensures var t := Inserted(s, key);
            && (Ring(t) <==> key != "")
            && t.index.Keys == s.index.Keys + {key}
            && (key !in s.index ==> t.live == s.live + 1 && |t.slots| == |Grown(s).slots|)
            && t.live == Tally(t.slots, OccupiedBit) + if key == "" then 1 else 0
  {
    hide *;
    if key in s.index {
      TrackedKeyStays(s, key);
      RingCountsLive(Inserted(s, key));
    } else if key != "" {
      NewKeyKeepsRing(s, key);
      RingCountsLive(Inserted(s, key));
    } else {
      EmptyKeyBreaksRing(s);
    }
  }

  lemma RingCountsLive(s: ClockState)
    requires Ring(s)
    ensures s.live == Tally(s.slots, OccupiedBit)
  {
  }

  lemma {:induction false} PackingDropsOnlyFree(slots: seq<Slot>)
    ensures Tally(Packed(slots), RefBit) <= Tally(slots, RefBit)
  {
    if slots != [] {
      var n := |slots| - 1;
      assert slots == slots[..n] + [slots[n]];
      PackingDropsOnlyFree(slots[..n]);
      TallyAppend(slots[..n], slots[n], RefBit);
      TallyAppend(Packed(slots[..n]), slots[n], RefBit);
      assert Packed(slots[..n]) + [] == Packed(slots[..n]);
    }
  }

  /** Growing sets no reference bit, on any ring. */
  lemma GrowthSetsNoBits(s: ClockState)
    ensures Tally(Grown(s).slots, RefBit) <= Tally(s.slots, RefBit)
  {
    hide *;
    if s.live < |s.slots| {
      GrownWithRoom(s);
    } else {
      GrownWhenFull(s);
      var kept := Packed(s.slots);
      var blank := Blank(Max(1, 2 * |s.slots|) - |kept|);
      TallyConcat(kept, blank, RefBit);
      TallyOfEmpties(blank);
      PackingDropsOnlyFree(s.slots);
    }
  }

  // ---------- Rebuild ----------

  lemma {:induction false} CapForHolds(n: nat, cap: nat)
    requires cap >= 1 && IsPowerOfTwo(cap)
    ensures CapFor(n, cap) >= n && CapFor(n, cap) >= cap && IsPowerOfTwo(CapFor(n, cap))
    ensures CapFor(n, cap) == cap || CapFor(n, cap) < 2 * n
    decreases n - cap
  {
    if cap < n {
      CapForHolds(n, 2 * cap);
    }
  }

  lemma {:induction false} IndexOfLookup(keys: seq<Key>)
    requires NoDup(keys)
    ensures forall k :: k in IndexOf(keys) ==> IndexOf(keys)[k] < |keys| && keys[IndexOf(keys)[k]] == k
    ensures forall i :: 0 <= i < |keys| ==> keys[i] in IndexOf(keys) && IndexOf(keys)[keys[i]] == i
  {
    if keys != [] {
      IndexOfLookup(keys[..|keys| - 1]);
    }
  }

  /** Rebuild puts the keys on a buffer of the least power of two that holds them, all bits clear. It is a
      well-formed ring exactly when none of them is the mark of a free slot. */
  lemma RebuildMakesRing(keys: seq<Key>)
    requires NoDup(keys)
    ensures Ring(Rebuilt(keys)) <==> "" !in keys
    ensures Rebuilt(keys).index.Keys == Elems(keys)
    ensures |Rebuilt(keys).slots| == CapFor(|keys|, 1)
    ensures |Rebuilt(keys).slots| < 2 * Max(1, |keys|)
    ensures Tally(Rebuilt(keys).slots, RefBit) == 0
  {
    CapForHolds(|keys|, 1);
    IndexOfLookup(keys);
    RebuiltTotals(keys);
  }

  lemma RebuiltTotals(keys: seq<Key>)
    ensures "" !in keys ==> Tally(Rebuilt(keys).slots, OccupiedBit) == |keys|
    ensures Tally(Rebuilt(keys).slots, RefBit) == 0
  {
    CapForHolds(|keys|, 1);
    var slots := Rebuilt(keys).slots;
    var front, rest := slots[..|keys|], slots[|keys|..];
    assert slots == front + rest;
    TallyConcat(front, rest, OccupiedBit);
    TallyConcat(front, rest, RefBit);
    TallyOfEmpties(rest);
    FullOrFree(front);
    TallyOfClear(front);
  }

  lemma {:induction false} TallyOfClear(slots: seq<Slot>)
    requires forall i :: 0 <= i < |slots| ==> !slots[i].ref
    ensures Tally(slots, RefBit) == 0
  {
    if slots != [] {
      TallyOfClear(slots[1..]);
    }
  }
}
