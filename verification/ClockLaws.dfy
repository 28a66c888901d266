/** Laws of the Clock policy, stated on the ring as the hand sees it: the slots in ring order, starting
    with the one under the hand. */
module ClockLaws {
  import opened Base
  import opened ClockStates

  function Turn(s: ClockState): seq<Slot>
    requires s.hand <= |s.slots|
  {
    s.slots[s.hand..] + s.slots[..s.hand]
  }

  function Cleared(q: seq<Slot>): (r: seq<Slot>)
    ensures |r| == |q|
    ensures forall i :: 0 <= i < |q| ==> r[i] == q[i].(ref := false)
  {
    seq(|q|, i requires 0 <= i < |q| => q[i].(ref := false))
  }

  predicate Cold(x: Slot) {
    x.key != "" && !x.ref
  }

  /** The position `n` steps ahead of `hand`, for at most one lap. */
  function Ahead(hand: nat, n: nat, cap: nat): int {
    if hand + n < cap then hand + n else hand + n - cap
  }

  // ---------- The hand walks ----------

  /** The hand passes `n` slots, clearing their bits. */
  ghost function Walked(s: ClockState, n: nat): ClockState
    decreases n
  {
    if n == 0 || s.hand >= |s.slots| then s
    else Walked(Passed(s, s.slots[s.hand].(ref := false)), n - 1)
  }

  lemma TurnAfterPass(s: ClockState, x: Slot)
    requires s.hand < |s.slots|
    ensures |Turn(s)| == |s.slots| && Turn(s)[0] == s.slots[s.hand]
    ensures Passed(s, x).hand < |s.slots| == |Passed(s, x).slots|
    ensures Turn(Passed(s, x)) == Turn(s)[1..] + [x]
  {
  }

  lemma TurnSplits(q: seq<Slot>, n: nat)
    requires 0 < n <= |q|
    ensures var r := q[1..] + [q[0].(ref := false)];
            r[n - 1..] + Cleared(r[..n - 1]) == q[n..] + Cleared(q[..n])
  {
  }

  lemma {:induction false} WalkTurnsRing(s: ClockState, n: nat)
    requires Ring(s) && n <= |s.slots|
    ensures Ring(Walked(s, n)) && Walked(s, n).index == s.index && Walked(s, n).live == s.live
    ensures |Walked(s, n).slots| == |s.slots|
    ensures Walked(s, n).hand == if s.slots == [] then 0 else Ahead(s.hand, n, |s.slots|)
    ensures Turn(Walked(s, n)) == Turn(s)[n..] + Cleared(Turn(s)[..n])
    decreases n
  {
    if n > 0 {
      RingHand(s);
      hide Ring, Turn, Cleared;
      var q, x := Turn(s), s.slots[s.hand].(ref := false);
      PassKeepsRing(s);
      TurnAfterPass(s, x);
      WalkTurnsRing(Passed(s, x), n - 1);
      TurnSplits(q, n);
    } else {
      assert Turn(s)[0..] + Cleared(Turn(s)[..0]) == Turn(s);
    }
  }

  /** The victim walk passes every slot that is empty or referenced. */
  lemma {:induction false} SweepPassesHotSlots(s: ClockState, n: nat, steps: nat)
    requires Ring(s) && n <= |s.slots| && n <= steps
    requires forall i :: 0 <= i < n ==> !Cold(Turn(s)[i])
    ensures Swept(s, steps) == Swept(Walked(s, n), steps - n)
    decreases n
  {
    if n > 0 {
      var x := s.slots[s.hand];
      assert Turn(s)[0] == x;
      PassKeepsRing(s);
      TurnAfterPass(s, x.(ref := false));
      assert x.key == "" ==> x == x.(ref := false);
      SweepPassesHotSlots(Passed(s, x.(ref := false)), n - 1, steps - 1);
    }
  }

  // ---------- The victim ----------

  /** `j` is the first position of `q` with a cold slot. */
  ghost predicate FirstCold(q: seq<Slot>, j: nat) {
    j < |q| && Cold(q[j]) && forall i :: 0 <= i < j ==> !Cold(q[i])
  }

  ghost predicate FirstOccupied(q: seq<Slot>, j: nat) {
    j < |q| && q[j].key != "" && forall i :: 0 <= i < j ==> q[i].key == ""
  }

  ghost predicate NoneCold(q: seq<Slot>) {
    forall i :: 0 <= i < |q| ==> !Cold(q[i])
  }

  lemma {:induction false} ColdOrNone(q: seq<Slot>) returns (j: nat)
    ensures FirstCold(q, j) || NoneCold(q)
  {
    j := 0;
    if q != [] && !Cold(q[0]) {
      var i := ColdOrNone(q[1..]);
      j := i + 1;
      assert q == [q[0]] + q[1..];
    }
  }

  lemma {:induction false} OccupiedOrNone(q: seq<Slot>) returns (j: nat)
    ensures FirstOccupied(q, j) || forall i :: 0 <= i < |q| ==> q[i].key == ""
  {
    j := 0;
    if q != [] && q[0].key == "" {
      var i := OccupiedOrNone(q[1..]);
      j := i + 1;
      assert q == [q[0]] + q[1..];
    }
  }

  lemma LiveMeansOccupied(s: ClockState) returns (j: nat)
    requires Ring(s) && s.live > 0
    ensures FirstOccupied(Turn(s), j)
  {
    FullOrFree(s.slots);
    j := OccupiedOrNone(Turn(s));
    if forall i :: 0 <= i < |Turn(s)| ==> Turn(s)[i].key == "" {
      forall i | 0 <= i < |s.slots|
        ensures s.slots[i].key == ""
      {
        assert s.slots[i] == Turn(s)[if i >= s.hand then i - s.hand else |s.slots| - s.hand + i];
      }
    }
  }

  /** What the ring looks like once the hand has come to the victim at distance `j`. */
  ghost predicate VictimFound(s: ClockState, t: ClockState, key: Option<Key>, j: nat)
    requires Ring(s) && Ring(t)
  {
    var q := Turn(s);
    && j < |q| && key == Some(q[j].key)
    && t.index == s.index && t.live == s.live && |t.slots| == |s.slots|
    && t.hand == Ahead(s.hand, j, |s.slots|)
    && if NoneCold(q) then FirstOccupied(q, j) && Turn(t) == Cleared(q[j..] + q[..j])
       else FirstCold(q, j) && Turn(t) == q[j..] + Cleared(q[..j])
  }

  /** The walk stops at the first cold slot, if it may go that far. */
  lemma SweepStopsAtCold(s: ClockState, j: nat, steps: nat)
    requires Ring(s) && FirstCold(Turn(s), j) && j <= steps
    ensures Swept(s, steps) == (Walked(s, j), Some(Turn(s)[j].key))
  {
    WalkTurnsRing(s, j);
    SweepPassesHotSlots(s, j, steps);
    var t := Walked(s, j);
    assert t.slots[t.hand] == Turn(t)[0] == Turn(s)[j];
  }

  lemma ColdVictim(s: ClockState, j: nat)
    requires Ring(s) && s.live > 0 && FirstCold(Turn(s), j)
    ensures Ring(VictimOf(s).0) && VictimFound(s, VictimOf(s).0, VictimOf(s).1, j)
  {
    WalkTurnsRing(s, j);
    SweepStopsAtCold(s, j, 2 * |s.slots|);
  }

  /** With no cold slot, the walk makes a full lap and starts again on a ring without bits. */
  lemma FullLap(s: ClockState, steps: nat)
    requires Ring(s) && NoneCold(Turn(s)) && steps >= |s.slots|
    ensures var lap := Walked(s, |s.slots|);
            && Ring(lap) && lap.index == s.index && lap.live == s.live && lap.hand == s.hand
            && |lap.slots| == |s.slots| && Turn(lap) == Cleared(Turn(s))
            && Swept(s, steps) == Swept(lap, steps - |s.slots|)
  {
    WalkTurnsRing(s, |s.slots|);
    SweepPassesHotSlots(s, |s.slots|, steps);
    assert Turn(s)[|s.slots|..] + Cleared(Turn(s)[..|s.slots|]) == Cleared(Turn(s));
  }

  lemma FirstColdOnceCleared(q: seq<Slot>, j: nat)
    requires FirstOccupied(q, j)
    ensures FirstCold(Cleared(q), j)
  {
  }

  lemma ClearedRotation(q: seq<Slot>, j: nat)
    requires j <= |q|
    ensures Cleared(q)[j..] + Cleared(Cleared(q)[..j]) == Cleared(q[j..] + q[..j])
  {
  }

  lemma VictimAfterFullLap(s: ClockState, j: nat)
    requires Ring(s) && s.live > 0 && NoneCold(Turn(s)) && FirstOccupied(Turn(s), j)
    ensures Ring(VictimOf(s).0) && VictimFound(s, VictimOf(s).0, VictimOf(s).1, j)
  {
    var q := Turn(s);
    FullLap(s, 2 * |s.slots|);
    FirstColdOnceCleared(q, j);
    var lap := Walked(s, |s.slots|);
    WalkTurnsRing(lap, j);
    SweepStopsAtCold(lap, j, |s.slots|);
    ClearedRotation(q, j);
  }

  /** The victim is the first cold slot in ring order from the hand, and exactly the bits before it are
      cleared. When every key is referenced all bits are cleared and the first occupied slot is it. */
  lemma VictimMeetsRingSpec(s: ClockState) returns (j: nat)
    requires Ring(s) && s.live > 0
    ensures Ring(VictimOf(s).0) && VictimFound(s, VictimOf(s).0, VictimOf(s).1, j)
  {
    j := ColdOrNone(Turn(s));
    if FirstCold(Turn(s), j) {
      ColdVictim(s, j);
    } else {
      j := LiveMeansOccupied(s);
      VictimAfterFullLap(s, j);
    }
  }

  /** The slot under the hand is cold. */
  predicate RestsOnCold(s: ClockState) {
    s.hand < |s.slots| && Cold(s.slots[s.hand])
  }

  lemma SweepIgnoresSlack(s: ClockState, j: nat, fewer: nat, steps: nat)
    requires Ring(s) && FirstCold(Turn(s), j) && j <= fewer <= steps
    ensures Swept(s, fewer) == Swept(s, steps)
    ensures RestsOnCold(Swept(s, steps).0)
  {
    WalkTurnsRing(s, j);
    SweepStopsAtCold(s, j, fewer);
    SweepStopsAtCold(s, j, steps);
    assert Turn(Walked(s, j))[0] == Turn(s)[j];
  }

  lemma SweepIgnoresSlackAfterLap(s: ClockState, j: nat, fewer: nat, steps: nat)
    requires Ring(s) && NoneCold(Turn(s)) && FirstOccupied(Turn(s), j) && |s.slots| + j <= fewer <= steps
    ensures Swept(s, fewer) == Swept(s, steps)
    ensures RestsOnCold(Swept(s, steps).0)
  {
    hide *;
    FullLap(s, fewer);
    FullLap(s, steps);
    FirstColdOnceCleared(Turn(s), j);
    SweepIgnoresSlack(Walked(s, |s.slots|), j, fewer - |s.slots|, steps - |s.slots|);
  }

  /** Two laps less one slot suffice: the walk never runs out of its bound of two laps. */
  lemma VictimWithinTwoLaps(s: ClockState, bound: nat)
    requires Ring(s) && s.live > 0 && bound == 2 * |s.slots|
    ensures bound > 0 && Swept(s, bound - 1) == Swept(s, bound)
    ensures RestsOnCold(Swept(s, bound).0)
  {
    var j := ColdOrNone(Turn(s));
    if NoneCold(Turn(s)) {
      j := LiveMeansOccupied(s);
      SweepIgnoresSlackAfterLap(s, j, bound - 1, bound);
    } else {
      SweepIgnoresSlack(s, j, bound - 1, bound);
    }
  }

  lemma VictimKeepsRing(s: ClockState)
    requires Ring(s)
    ensures Ring(VictimOf(s).0) && VictimOf(s).0.index == s.index && VictimOf(s).0.live == s.live
    ensures |VictimOf(s).0.slots| == |s.slots|
    ensures VictimOf(s).1.None? <==> s.index == map[]
    ensures s.index == map[] ==> VictimOf(s).0 == s
    ensures forall key :: VictimOf(s).1 == Some(key) ==> key in s.index
  {
    LiveCountsKeys(s);
    if s.live > 0 {
      var j := VictimMeetsRingSpec(s);
      var q := Turn(s);
      var i := Ahead(s.hand, j, |s.slots|);
      assert q[j] == s.slots[i];
      assert q[j].key != "";
    }
  }

  /** Asking again without removing the victim gives the same key and changes nothing. */
  lemma VictimIsStable(s: ClockState)
    requires Ring(s)
    ensures VictimOf(VictimOf(s).0) == VictimOf(s)
  {
    if s.live > 0 {
      var j := VictimMeetsRingSpec(s);
      var t := VictimOf(s).0;
      assert Turn(t)[0] == t.slots[t.hand];
      assert Cold(Turn(t)[0]);
    }
  }

  // ---------- Where a new key goes ----------

  ghost predicate FirstFree(q: seq<Slot>, j: nat) {
    j < |q| && q[j].key == "" && forall i :: 0 <= i < j ==> q[i].key != ""
  }

  lemma {:induction false} FreeOrNone(q: seq<Slot>) returns (j: nat)
    ensures FirstFree(q, j) || forall i :: 0 <= i < |q| ==> q[i].key != ""
  {
    j := 0;
    if q != [] && q[0].key != "" {
      var i := FreeOrNone(q[1..]);
      j := i + 1;
      assert q == [q[0]] + q[1..];
    }
  }

  lemma {:induction false} ProbeStopsAtFirstFree(slots: seq<Slot>, hand: nat, j: nat, steps: nat)
    requires hand < |slots| && j < steps && j < |slots|
    requires slots[Ahead(hand, j, |slots|)].key == ""
    requires forall i :: 0 <= i < j ==> slots[Ahead(hand, i, |slots|)].key != ""
    ensures Probe(slots, hand, steps) == Ahead(hand, j, |slots|)
    decreases j
  {
    if j > 0 {
      assert slots[Ahead(hand, 0, |slots|)].key != "";
      var next := Next(hand, |slots|);
      forall i | 0 <= i < j - 1
        ensures slots[Ahead(next, i, |slots|)].key != ""
      {
        assert slots[Ahead(hand, i + 1, |slots|)].key != "";
      }
      ProbeStopsAtFirstFree(slots, next, j - 1, steps - 1);
    }
  }

  lemma TurnAt(s: ClockState, i: nat)
    requires s.hand < |s.slots| && i < |s.slots|
    ensures |Turn(s)| == |s.slots| && Ahead(s.hand, i, |s.slots|) < |s.slots|
    ensures Turn(s)[i] == s.slots[Ahead(s.hand, i, |s.slots|)]
  {
  }

  /** The ring once a slot has been filled and the hand has passed it. */
  lemma TurnAfterFilling(s: ClockState, j: nat, x: Slot)
    requires s.hand < |s.slots| && j < |s.slots|
    ensures var p := Ahead(s.hand, j, |s.slots|);
            var t := s.(slots := s.slots[p := x], hand := Next(p, |s.slots|));
            && t.hand < |t.slots|
            && Turn(t) == Turn(s)[j + 1..] + Turn(s)[..j] + [x]
  {
    var n, p := |s.slots|, Ahead(s.hand, j, |s.slots|);
    var t := s.(slots := s.slots[p := x], hand := Next(p, n));
    var q := Turn(s)[j + 1..] + Turn(s)[..j] + [x];
    forall k | 0 <= k < n
      ensures Turn(t)[k] == q[k]
    {
      TurnAt(t, k);
      if k < n - 1 {
        TurnAt(s, if k + j + 1 < n then k + j + 1 else k + j + 1 - n);
      }
    }
  }

  /** A new key takes the first free slot that the hand comes to, with its bit set, and the hand goes past it:
      the new key is the last one that the hand will come to. No other slot changes. */
  lemma InsertTakesFirstFree(s: ClockState, key: Key) returns (j: nat)
    requires Ring(s) && key !in s.index
    ensures var g, t := Grown(s), Inserted(s, key);
            && Ring(g) && FirstFree(Turn(g), j)
            && Ahead(g.hand, j, |g.slots|) < |g.slots|
            && t.slots == g.slots[Ahead(g.hand, j, |g.slots|) := Slot(key, true)]
            && t.index == g.index[key := Ahead(g.hand, j, |g.slots|)] && t.live == g.live + 1
            && t.hand < |t.slots| && Turn(t) == Turn(g)[j + 1..] + Turn(g)[..j] + [Slot(key, true)]
  {
    var g := Grown(s);
    GrowKeepsRing(s);
    InsertFindsFree(s);
    assert InsertReturns(s, key);
    hide Ring, Grown, InsertReturns;
    assert g.hand < |g.slots| by {
      RingHand(g);
    }
    j := FreeOrNone(Turn(g));
    var i :| 0 <= i < |g.slots| && g.slots[i].key == "";
    TurnAt(g, if i >= g.hand then i - g.hand else i + |g.slots| - g.hand);
    assert FirstFree(Turn(g), j);
    forall m | 0 <= m <= j
      ensures Turn(g)[m] == g.slots[Ahead(g.hand, m, |g.slots|)]
    {
      TurnAt(g, m);
    }
    ProbeStopsAtFirstFree(g.slots, g.hand, j, |g.slots|);
    hide Turn;
    TurnAfterFilling(g, j, Slot(key, true));
  }

  lemma RingHand(s: ClockState)
    requires Ring(s) && s.slots != []
    ensures s.hand < |s.slots|
  {
  }
}
