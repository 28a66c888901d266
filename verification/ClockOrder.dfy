/** What single hook calls do to the order in which Clock evicts: the second chance of a key in use, the place
    of a new key, the order after a rebuild, and what a batch leaves behind. */
module ClockOrders {
  import opened Base
  import opened ClockStates
  import opened ClockLaws
  import opened ClockRuns

  /** The keys without a reference bit. */
  ghost function ColdKeys(s: ClockState): set<Key> {
    set k | k in s.index && s.index[k] < |s.slots| && !s.slots[s.index[k]].ref
  }

  lemma {:induction false} PickHas(q: seq<Slot>, keep: Slot -> bool, i: nat)
    requires i < |q| && keep(q[i])
    ensures q[i].key in Pick(q, keep)
  {
    if i > 0 {
      PickHas(q[1..], keep, i - 1);
    }
  }

  lemma PositionOnTurn(s: ClockState, i: nat) returns (j: nat)
    requires Ring(s) && i < |s.slots|
    ensures j < |Turn(s)| && Turn(s)[j] == s.slots[i]
  {
    j := if i >= s.hand then i - s.hand else i + |s.slots| - s.hand;
  }

  /** The cold keys in ring order are the keys without a bit, each once. */
  lemma ColdKeysPicked(s: ClockState)
    requires Ring(s)
    ensures Elems(Pick(Turn(s), Cold)) == ColdKeys(s) && |Pick(Turn(s), Cold)| == |ColdKeys(s)|
  {
    var q := Turn(s);
    KeysOnRingDistinct(s);
    PickDistinct(q, Cold);
    ElemsCard(Pick(q, Cold));
    forall k | k in Pick(q, Cold)
      ensures k in ColdKeys(s)
    {
      PickedFrom(q, Cold, k);
      var j :| 0 <= j < |q| && q[j].key == k && Cold(q[j]);
      TurnAt(s, j);
    }
    forall k | k in ColdKeys(s)
      ensures k in Pick(q, Cold)
    {
      var j := PositionOnTurn(s, s.index[k]);
      PickHas(q, Cold, j);
    }
  }

  /** A key with its bit set is evicted after all keys without one. */
  lemma SecondChance(s: ClockState, key: Key, n: nat)
    requires Ring(s) && key in s.index && key !in ColdKeys(s) && n <= |ColdKeys(s)|
    ensures key !in VictimRounds(s, n)
  {
    RoundsFollowEvictionOrder(s, n);
    ColdKeysPicked(s);
    assert VictimRounds(s, n) == Pick(Turn(s), Cold)[..n];
    hide Ring, Turn, Pick, ColdKeys;
    assert key !in Elems(Pick(Turn(s), Cold));
  }

  /** The second chance: once it has been used, a key outlives every key whose bit is not set. */
  lemma AccessDefersEviction(s: ClockState, key: Key, n: nat)
    requires Ring(s) && key in s.index && n <= |ColdKeys(s) - {key}|
    ensures key !in VictimRounds(Marked(s, key), n)
  {
    MarkKeepsRing(s, key);
    MarkSetsBit(s, key);
    var t := Marked(s, key);
    forall k | k in s.index
      ensures k in ColdKeys(t) <==> k in ColdKeys(s) - {key}
    {
      assert k != key ==> s.index[k] != s.index[key];
    }
    assert ColdKeys(t) == ColdKeys(s) - {key};
    SecondChance(t, key, n);
  }

  lemma PickLast(q: seq<Slot>, x: Slot)
    requires Hot(x)
    ensures EvictionOrder(q + [x]) == EvictionOrder(q) + [x.key]
  {
    PickConcat(q, [x], Cold);
    PickConcat(q, [x], Hot);
    PickSingle(x, Cold);
    PickSingle(x, Hot);
  }

  lemma LastOfOrder(order: seq<Key>, key: Key, n: nat)
    requires NoDup(order + [key])
    ensures key in Take(order + [key], n) <==> n > |order|
  {
    var all := order + [key];
    if n > |order| {
      assert Take(all, n) == all && all[|order|] == key;
    } else {
      assert forall i :: 0 <= i < n ==> Take(all, n)[i] == all[i] != all[|order|];
    }
  }

  /** A new key is evicted last of all. */
  lemma NewKeyIsEvictedLast(s: ClockState, key: Key, n: nat)
    requires Ring(s) && key !in s.index && key != ""
    ensures key in VictimRounds(Inserted(s, key), n) <==> n > |s.index|
  {
    var t := Inserted(s, key);
    var j := InsertTakesFirstFree(s, key);
    var front := Turn(Grown(s))[j + 1..] + Turn(Grown(s))[..j];
    InsertKeepsRing(s, key);
    LiveCountsKeys(s);
    hide Ring, Grown, Inserted, FirstFree;
    assert Turn(t) == front + [Slot(key, true)];
    hide Turn;
    RoundsFollowEvictionOrder(t, n);
    KeysOnRingDistinct(t);
    OrderDistinct(Turn(t));
    OrderLength(t);
    PickLast(front, Slot(key, true));
    LastOfOrder(EvictionOrder(front), key, n);
  }

  // ---------- After a rebuild ----------

  lemma {:induction false} PickUnmarked(q: seq<Slot>, keys: seq<Key>)
    requires |q| == |keys| && "" !in keys
    requires forall i :: 0 <= i < |q| ==> q[i] == Slot(keys[i], false)
    ensures Pick(q, Cold) == keys && Pick(q, Hot) == []
  {
    if q != [] {
      assert keys == [keys[0]] + keys[1..];
      PickUnmarked(q[1..], keys[1..]);
    }
  }

  lemma {:induction false} PickFree(q: seq<Slot>)
    requires forall i :: 0 <= i < |q| ==> q[i] == EMPTY
    ensures Pick(q, Cold) == [] && Pick(q, Hot) == []
  {
    if q != [] {
      PickFree(q[1..]);
    }
  }

  /** A rebuilt Clock evicts in the order in which the entries were listed. */
  lemma RebuiltEvictsInListingOrder(keys: seq<Key>, n: nat)
    requires NoDup(keys) && "" !in keys
    ensures VictimRounds(Rebuilt(keys), n) == Take(keys, n)
  {
    var s := Rebuilt(keys);
    RebuildMakesRing(keys);
    CapForHolds(|keys|, 1);
    var front, rest := s.slots[..|keys|], s.slots[|keys|..];
    assert Turn(s) == front + rest;
    PickUnmarked(front, keys);
    PickFree(rest);
    PickConcat(front, rest, Cold);
    PickConcat(front, rest, Hot);
    RoundsFollowEvictionOrder(s, n);
    assert EvictionOrder(Turn(s)) == (keys + []) + ([] + []) == keys;
  }

  // ---------- What a batch leaves behind ----------

  /** The batch walk has gone `m` slots, just as far as it took to pick `n` keys, or to the end of its bound. */
  ghost predicate WalkedFor(s: ClockState, steps: nat, n: nat, m: nat) {
    && m <= steps && Gathered(s, steps, n).0 == Walked(s, m) && Gathered(s, steps, n).1 == Emitted(s, m)
    && (m == steps || |Emitted(s, m)| == n)
    && forall i :: 0 <= i < m ==> |Emitted(s, i)| < n
  }

  lemma WalkedForMore(s: ClockState, steps: nat, n: nat, m: nat)
    requires Ring(s) && s.slots != [] && steps > 0 && n > 0
    requires var y := s.slots[s.hand];
             WalkedFor(Passed(s, y.(ref := false)), steps - 1, if Cold(y) then n - 1 else n, m)
    ensures WalkedFor(s, steps, n, m + 1)
  {
    var y := s.slots[s.hand];
    var t := Passed(s, y.(ref := false));
    assert !y.ref ==> y == y.(ref := false);
    forall i | 0 <= i < m + 1
      ensures |Emitted(s, i)| < n
    {
      if i > 0 {
        assert |Emitted(t, i - 1)| < if Cold(y) then n - 1 else n;
      }
    }
  }

  lemma {:induction false} GatherWalks(s: ClockState, steps: nat, n: nat) returns (m: nat)
    requires Ring(s) && s.slots != []
    ensures WalkedFor(s, steps, n, m)
    decreases steps
  {
    if steps == 0 || n == 0 {
      m := 0;
    } else {
      var y := s.slots[s.hand];
      PassKeepsRing(s);
      m := GatherWalks(Passed(s, y.(ref := false)), steps - 1, if Cold(y) then n - 1 else n);
      WalkedForMore(s, steps, n, m);
      m := m + 1;
    }
  }

  /** A batch leaves the ring as the hand leaves it on its way to the last key picked: it has gone no further
      than that, or two laps, and exactly the slots it has passed have lost their bits. */
  lemma BatchWalksNoFurther(s: ClockState, n: nat) returns (m: nat)
    requires Ring(s) && s.live > 0 && n > 0
    ensures m <= 2 * |s.slots| && CandidatesOf(s, n) == (Walked(s, m), Emitted(s, m))
    ensures m == 2 * |s.slots| || |Emitted(s, m)| == n
    ensures forall i :: 0 <= i < m ==> |Emitted(s, i)| < n
  {
    FullOrFree(s.slots);
    m := GatherWalks(s, 2 * |s.slots|, n);
  }

  // ---------- Growth of any ring ----------

  lemma {:induction false} PackedKeepsOrder(slots: seq<Slot>, keep: Slot -> bool)
    requires forall x :: keep(x) ==> Full(x)
    ensures Pick(Packed(slots), keep) == Pick(slots, keep)
    ensures forall i :: 0 <= i < |Packed(slots)| ==> Packed(slots)[i].key != ""
  {
    if slots != [] {
      var front, x := slots[..|slots| - 1], slots[|slots| - 1];
      PackedKeepsOrder(front, keep);
      assert slots == front + [x];
      PickConcat(front, [x], keep);
      PickConcat(Packed(front), [x], keep);
      PickSingle(x, keep);
      assert Packed(front) + [] == Packed(front) && Pick(front, keep) + [] == Pick(front, keep);
    }
  }

  lemma {:induction false} ReindexedLookup(index: map<Key, nat>, slots: seq<Slot>)
    requires DistinctKeys(slots) && forall i :: 0 <= i < |slots| ==> slots[i].key != ""
    ensures forall i :: 0 <= i < |slots| ==> slots[i].key in Reindexed(index, slots) && Reindexed(index, slots)[slots[i].key] == i
    ensures forall k :: k in index && (forall i :: 0 <= i < |slots| ==> slots[i].key != k) ==>
              k in Reindexed(index, slots) && Reindexed(index, slots)[k] == index[k]
  {
    if slots != [] {
      ReindexedLookup(index, slots[..|slots| - 1]);
    }
  }

  lemma {:induction false} PackedDistinct(slots: seq<Slot>)
    requires DistinctKeys(slots)
    ensures DistinctKeys(Packed(slots))
    ensures forall i :: 0 <= i < |Packed(slots)| ==> Packed(slots)[i] in slots
  {
    if slots != [] {
      var front, x := slots[..|slots| - 1], slots[|slots| - 1];
      PackedDistinct(front);
      forall i | 0 <= i < |Packed(front)|
        ensures Packed(front)[i] in slots && (x.key != "" ==> Packed(front)[i].key != x.key)
      {
        var j :| 0 <= j < |front| && front[j] == Packed(front)[i];
        assert slots[j] == front[j];
        if front[j].key == "" {
          PackedKeepsOrder(front, Full);
        }
      }
    }
  }

  /** Growing a ring that counts as full, whether all its slots are occupied or not, keeps keys and bits in the order
      of the slots, and leaves the occupied slots in front of the hand and the free ones behind it. Every key on
      the ring is indexed at its new place, and they make up the new live count. */
  lemma GrowthPacksInOrder(s: ClockState, keep: Slot -> bool)
    requires s.live >= |s.slots| && DistinctKeys(s.slots) && forall x :: keep(x) ==> Full(x)
    ensures var t := Grown(s);
            && t.live == t.hand < |t.slots| == Max(1, 2 * |s.slots|)
            && Pick(t.slots, keep) == Pick(s.slots, keep)
            && (forall i :: 0 <= i < t.hand ==> t.slots[i].key in t.index && t.index[t.slots[i].key] == i)
            && (forall i :: 0 <= i < |t.slots| ==> (t.slots[i].key != "" <==> i < t.hand))
  {
    hide Grown, Packed, Reindexed, DistinctKeys, Pick, Blank, Full;
    var kept := Packed(s.slots);
    GrownWhenFull(s);
    PackedKeepsOrder(s.slots, keep);
    PackedDistinct(s.slots);
    ReindexedLookup(s.index, kept);
    FreeBehind(kept, Blank(Max(1, 2 * |s.slots|) - |kept|), Reindexed(s.index, kept), keep);
  }

  lemma FreeBehind(kept: seq<Slot>, blank: seq<Slot>, index: map<Key, nat>, keep: Slot -> bool)
    requires forall x :: keep(x) ==> Full(x)
    requires forall i :: 0 <= i < |blank| ==> blank[i] == EMPTY
    requires forall i :: 0 <= i < |kept| ==> kept[i].key != "" && kept[i].key in index && index[kept[i].key] == i
    ensures Pick(kept + blank, keep) == Pick(kept, keep)
    ensures forall i :: 0 <= i < |kept| ==> (kept + blank)[i].key in index && index[(kept + blank)[i].key] == i
    ensures forall i :: 0 <= i < |kept + blank| ==> ((kept + blank)[i].key != "" <==> i < |kept|)
  {
    PickConcat(kept, blank, keep);
    PickNothing(blank, keep);
  }

  lemma {:induction false} PickNothing(q: seq<Slot>, keep: Slot -> bool)
    requires forall i :: 0 <= i < |q| ==> !keep(q[i])
    ensures Pick(q, keep) == []
  {
    if q != [] {
      PickNothing(q[1..], keep);
    }
  }
}
