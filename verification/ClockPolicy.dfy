/** cache/policy/clock.go: the Clock policy object, over its ring buffer. */
module Clocks {
  import opened Base
  import opened ClockStates
  import opened ClockLaws
  import opened ClockRuns

  const PER_SLOT_BYTES := 24

  lemma NextIsModulo(hand: nat, cap: nat)
    requires hand < cap
    ensures (hand + 1) % cap == Next(hand, cap)
  {
  }

  lemma SmallModulo(i: nat, cap: nat)
    requires i < cap
    ensures i % cap == i
  {
  }

  class Clock {
    var index: map<Key, nat>
    var slots: array<Slot>
    var hand: nat
    var cap: nat
    var live: int

    function View(): ClockState
      reads this, slots
    {
      ClockState(slots[..], index, hand, live)
    }

    ghost predicate Valid()
      reads this, slots
    {
      Ring(View()) && cap == slots.Length
    }

    constructor ()
      ensures Valid() && View() == NEW_STATE && fresh(slots)
    {
      index, hand, cap, live := map[], 0, 0, 0;
      slots := new Slot[0];
    }

    method OnAccess(key: Key)
      requires Valid()
      modifies slots
      ensures View() == Marked(old(View()), key)
      ensures slots[..] == if key in index then old(slots[..])[index[key] := Slot(key, true)] else old(slots[..])
      ensures Valid()
    {
      MarkKeepsRing(View(), key);
      if key in index {
        var i := index[key];
        slots[i] := slots[i].(ref := true);
      }
    }

    method OnInsert(key: Key)
      requires Valid()
      modifies this, slots
      ensures View() == Inserted(old(View()), key)
      ensures key in old(index) ==> View() == old(View()).(slots := old(slots[..])[old(index[key]) := Slot(key, true)])
      ensures Valid() <==> key != ""
      ensures slots == old(slots) || fresh(slots)
    {
      ghost var s := View();
      InsertKeepsRing(s, key);
      if key in index {
        var i := index[key];
        slots[i] := slots[i].(ref := true);
        return;
      }
      GrowLocked();
      Place(key);
    }

    /** The probe for a free slot, and the insertion there. The loop's own check for running past the
        whole ring never fires: growing has left a free slot. */
    method Place(key: Key)
      requires Valid() && (exists i :: 0 <= i < |View().slots| && View().slots[i].key == "")
      modifies this, slots
      ensures slots == old(slots) && cap == old(cap) == slots.Length
      ensures var g := old(View()); var p := Probe(g.slots, g.hand, |g.slots|);
              && p < |g.slots|
              && View() == ClockState(g.slots[p := Slot(key, true)], g.index[key := p], Next(p, |g.slots|), g.live + 1)
    {
      ghost var g := View();
      ghost var p := Probe(g.slots, g.hand, |g.slots|);
      FreeSlotIsFound(g);
      var steps := 0;
      while slots[hand].key != ""
        invariant steps <= cap && hand < cap == slots.Length && slots == old(slots) && cap == old(cap)
        invariant View() == g.(hand := hand)
        invariant Probe(g.slots, hand, cap - steps) == p
        decreases cap - steps
      {
        NextIsModulo(hand, cap);
        hand := (hand + 1) % cap;
        steps := steps + 1;
        if steps > cap {
          assert false;
        }
      }
      slots[hand] := Slot(key, true);
      index := index[key := hand];
      live := live + 1;
      NextIsModulo(hand, cap);
      hand := (hand + 1) % cap;
    }

    method GrowLocked()
      requires Valid()
      modifies this
      ensures View() == Grown(old(View()))
      ensures Valid() && (slots == old(slots) || fresh(slots))
      ensures exists i :: 0 <= i < |View().slots| && View().slots[i].key == ""
    {
      GrowKeepsRing(View());
      if live < cap {
        return;
      }
      Double();
    }

    /** Replaces the buffer by one of twice the size with the occupied slots at the front. */
    method Double()
      requires cap == slots.Length && live >= cap
      modifies this
      ensures View() == Grown(old(View()))
      ensures cap == slots.Length && fresh(slots)
    {
      hide Grown, Packed, Reindexed, Blank;
      GrownWhenFull(View());
      var newCap := cap * 2;
      if newCap < 1 {
        newCap := 1;
      }
      var newSlots := EmptyBuffer(newCap);
      var idx := Pack(newSlots);
      Install(newSlots, idx);
    }

    static method EmptyBuffer(n: nat) returns (b: array<Slot>)
      ensures fresh(b) && b.Length == n && forall j :: 0 <= j < n ==> b[j] == EMPTY
    {
      b := new Slot[n](_ => EMPTY);
    }

    /** Puts a buffer with `idx` occupied slots in place. */
    method Install(newSlots: array<Slot>, idx: nat)
      requires idx < newSlots.Length
      modifies this`slots, this`cap, this`hand, this`live
      ensures slots == newSlots && cap == newSlots.Length && hand == idx && live == idx
    {
      slots := newSlots;
      cap := newSlots.Length;
      SmallModulo(idx, cap);
      hand := idx % cap;
      live := idx;
    }

    /** Copies the occupied slots to the front of an empty buffer, and indexes them. */
    method Pack(newSlots: array<Slot>) returns (idx: nat)
      requires newSlots != slots && cap == slots.Length <= newSlots.Length
      requires forall j :: 0 <= j < newSlots.Length ==> newSlots[j] == EMPTY
      modifies newSlots, this`index
      ensures var kept := Packed(slots[..]);
              && idx == |kept| && index == Reindexed(old(index), kept)
              && newSlots[..] == kept + Blank(newSlots.Length - |kept|)
    {
      idx := 0;
      ghost var all, before := slots[..], index;
      assert Packed(all[..0]) == [] && Reindexed(before, []) == before;
      hide Packed, Reindexed;
      for i := 0 to cap
        invariant slots[..] == all && idx == |Packed(all[..i])|
        invariant newSlots[..idx] == Packed(all[..i])
        invariant index == Reindexed(before, Packed(all[..i]))
        invariant forall j :: idx <= j < newSlots.Length ==> newSlots[j] == EMPTY
      {
        PackOne(before, all, i);
        idx := PackSlot(newSlots, i, idx);
      }
      assert all[..cap] == all;
      EndsInBlank(newSlots[..], idx);
      hide Blank;
    }

    static lemma EndsInBlank(slots: seq<Slot>, idx: nat)
      requires idx <= |slots| && forall j :: idx <= j < |slots| ==> slots[j] == EMPTY
      ensures slots == slots[..idx] + Blank(|slots| - idx)
    {
    }

    method PackSlot(newSlots: array<Slot>, i: nat, idx: nat) returns (next: nat)
      requires newSlots != slots && i < slots.Length && idx < newSlots.Length
      requires forall j :: idx <= j < newSlots.Length ==> newSlots[j] == EMPTY
      modifies newSlots, this`index
      ensures idx <= next <= newSlots.Length
      ensures next == if slots[i].key == "" then idx else idx + 1
      ensures index == if slots[i].key == "" then old(index) else old(index)[slots[i].key := idx]
      ensures newSlots[..next] == old(newSlots[..idx]) + if slots[i].key == "" then [] else [slots[i]]
      ensures forall j :: next <= j < newSlots.Length ==> newSlots[j] == EMPTY
    {
      next := idx;
      if slots[i].key != "" {
        newSlots[idx] := slots[i];
        index := index[newSlots[idx].key := idx];
        next := idx + 1;
      }
    }

    static lemma PackOne(index: map<Key, nat>, slots: seq<Slot>, i: nat)
      requires i < |slots|
      ensures var before, after := Packed(slots[..i]), Packed(slots[..i + 1]);
              && after == (if slots[i].key == "" then before else before + [slots[i]])
              && Reindexed(index, after) ==
                   (if slots[i].key == "" then Reindexed(index, before)
                    else Reindexed(index, before)[slots[i].key := |before|])
    {
      assert slots[..i + 1][..i] == slots[..i];
      var before := Packed(slots[..i]);
      assert (before + [slots[i]])[..|before|] == before;
    }

    method OnRemove(key: Key)
      requires Valid()
      modifies this, slots
      ensures View() == Removed(old(View()), key)
      ensures Valid() && slots == old(slots) && hand == old(hand) && index == old(index) - {key}
    {
      RemoveKeepsRing(View(), key);
      if key in index {
        slots[index[key]] := EMPTY;
        index := index - {key};
        live := live - 1;
      }
    }

    /** Advances the hand by one slot. */
    method Skip()
      requires hand < cap == slots.Length
      modifies this`hand
      ensures hand == Next(old(hand), cap) < cap
      ensures View() == Passed(old(View()), old(View()).slots[old(hand)])
    {
      NextIsModulo(hand, cap);
      assert slots[..] == slots[..][hand := slots[hand]];
      hand := (hand + 1) % cap;
    }

    /** Clears the bit under the hand, and advances the hand. */
    method PassHot()
      requires hand < cap == slots.Length
      modifies this`hand, slots
      ensures hand < cap
      ensures View() == Passed(old(View()), old(View()).slots[old(hand)].(ref := false))
    {
      NextIsModulo(hand, cap);
      slots[hand] := slots[hand].(ref := false);
      hand := (hand + 1) % cap;
    }

    /** The walk always returns from inside its loop: the bound of two laps is never exhausted. */
    method Victim() returns (key: Key, ok: bool)
      requires Valid()
      modifies this`hand, slots
      ensures (View(), if ok then Some(key) else None) == VictimOf(old(View()))
      ensures Valid() && (!ok ==> key == "")
    {
      ghost var s := View();
      VictimKeepsRing(s);
      key, ok := "", false;
      if live == 0 {
        return;
      }
      var bound := 2 * slots.Length;
      VictimWithinTwoLaps(s, bound);
      assert hand < cap && VictimOf(s) == Swept(s, bound - 1);
      hide *;
      key := Sweep(bound);
      ok := true;
    }

    /** The loop of Victim. */
    method Sweep(bound: nat) returns (key: Key)
      requires hand < cap == slots.Length && bound > 0 && RestsOnCold(Swept(View(), bound - 1).0)
      modifies this`hand, slots
      ensures (View(), Some(key)) == Swept(old(View()), bound - 1)
    {
      ghost var s := View();
      hide Swept;
      var k := 0;
      while k < bound
        invariant 0 <= k < bound && hand < cap == slots.Length == |s.slots|
        invariant Swept(View(), bound - 1 - k) == Swept(s, bound - 1)
      {
        SweptStep(View(), bound - 1 - k);
        if slots[hand].key == "" {
          Skip();
        } else if slots[hand].ref {
          PassHot();
        } else {
          return slots[hand].key;
        }
        k := k + 1;
      }
      assert false;
    }

    static lemma SweptStep(v: ClockState, steps: nat)
      requires v.hand < |v.slots|
      ensures var x := v.slots[v.hand];
              if Cold(x) then Swept(v, steps) == (v, Some(x.key))
              else if steps > 0 then
                Swept(v, steps) == Swept(Passed(v, if x.key == "" then x else x.(ref := false)), steps - 1)
              else !RestsOnCold(Swept(v, steps).0)
    {
    }

    static lemma GatherTakes(v: ClockState, steps: nat, n: nat, out: seq<Key>)
      requires steps > 0 && n > 0 && v.hand < |v.slots| && Cold(v.slots[v.hand])
      ensures var x := v.slots[v.hand]; var t := v.(hand := Next(v.hand, |v.slots|));
              && Gathered(v, steps, n).0 == Gathered(t, steps - 1, n - 1).0
              && out + Gathered(v, steps, n).1 == out + [x.key] + Gathered(t, steps - 1, n - 1).1
    {
      var x := v.slots[v.hand];
      assert v.slots[v.hand := x] == v.slots;
      assert Passed(v, x) == v.(hand := Next(v.hand, |v.slots|));
    }

    method Candidates(n: int) returns (out: seq<Key>)
      requires Valid()
      modifies this`hand, slots
      ensures (View(), out) == CandidatesOf(old(View()), n)
      ensures Valid()
    {
      ghost var s := View();
      out := [];
      if n <= 0 || live == 0 {
        return;
      }
      GatherKeepsRing(s, 2 * |s.slots|, n);
      var bound := 2 * slots.Length;
      var k := 0;
      assert [] + Gathered(s, bound, n).1 == Gathered(s, bound, n).1;
      while k < bound && |out| < n
        invariant 0 <= k <= bound && |out| <= n && hand < cap == slots.Length
        invariant index == s.index && live == s.live
        invariant var rest := Gathered(View(), bound - k, n - |out|);
                  (rest.0, out + rest.1) == Gathered(s, bound, n)
      {
        ghost var v := View();
        if slots[hand].key == "" {
          Skip();
        } else if slots[hand].ref {
          PassHot();
        } else {
          GatherTakes(v, bound - k, n - |out|, out);
          out := out + [slots[hand].key];
          Skip();
        }
        k := k + 1;
      }
      assert out + Gathered(View(), bound - k, n - |out|).1 == out;
    }

    method Rebuild(entries: seq<Key>)
      requires NoDup(entries)
      modifies this
      ensures View() == Rebuilt(entries)
      ensures fresh(slots) && (Valid() <==> "" !in entries)
    {
      RebuildMakesRing(entries);
      CapForHolds(|entries|, 1);
      var newCap := LeastCap(|entries|);
      slots := EmptyBuffer(newCap);
      index, cap, hand, live := map[], newCap, 0, 0;
      Fill(entries);
      assert slots[..] == Rebuilt(entries).slots;
    }

    static method LeastCap(n: nat) returns (newCap: nat)
      ensures newCap == CapFor(n, 1)
    {
      newCap := 1;
      while newCap < n
        invariant newCap >= 1 && CapFor(n, newCap) == CapFor(n, 1)
        decreases n - newCap
      {
        newCap := newCap * 2;
      }
    }

    method Fill(entries: seq<Key>)
      requires index == map[] && live == 0 && |entries| <= slots.Length
      requires forall j :: 0 <= j < slots.Length ==> slots[j] == EMPTY
      modifies slots, this`index, this`live
      ensures index == IndexOf(entries) && live == |entries|
      ensures forall j :: 0 <= j < slots.Length ==>
                slots[j] == if j < |entries| then Slot(entries[j], false) else EMPTY
    {
      for i := 0 to |entries|
        invariant live == i && index == IndexOf(entries[..i])
        invariant forall j :: 0 <= j < slots.Length ==>
                    slots[j] == if j < i then Slot(entries[j], false) else EMPTY
      {
        slots[i] := Slot(entries[i], false);
        assert entries[..i + 1][..i] == entries[..i];
        index := index[entries[i] := i];
        live := live + 1;
      }
      assert entries[..|entries|] == entries;
    }

    method MetadataBytes() returns (bytes: int)
      requires Valid()
      ensures bytes == 24 * |View().slots|
    {
      return cap * PER_SLOT_BYTES;
    }

    method Reset()
      modifies this
      ensures Valid() && View() == NEW_STATE && fresh(slots)
    {
      index, hand, cap, live := map[], 0, 0, 0;
      slots := new Slot[0];
    }
  }
}
