/** Laws of the Clock policy over runs of hooks, and of its batch eviction. */
module ClockRuns {
  import opened Base
  import opened ClockStates
  import opened ClockLaws

  datatype HookOp = Hit(key: Key) | Insertion(key: Key) | Removal(key: Key) | AskVictim | AskBatch(n: int)

  function Applied(s: ClockState, op: HookOp): ClockState {
    match op
    case Hit(key) => Marked(s, key)
    case Insertion(key) => Inserted(s, key)
    case Removal(key) => Removed(s, key)
    case AskVictim => VictimOf(s).0
    case AskBatch(n) => CandidatesOf(s, n).0
  }

  function AllApplied(s: ClockState, ops: seq<HookOp>): ClockState
    decreases |ops|
  {
    if ops == [] then s else AllApplied(Applied(s, ops[0]), ops[1..])
  }

  /** The empty string marks free slots, so it cannot be inserted as a key. */
  ghost predicate KeysNonEmpty(ops: seq<HookOp>) {
    forall i :: 0 <= i < |ops| && ops[i].Insertion? ==> ops[i].key != ""
  }

  lemma {:induction false} GatherKeepsRing(s: ClockState, steps: nat, n: nat)
    requires Ring(s)
    ensures Ring(Gathered(s, steps, n).0)
    ensures Gathered(s, steps, n).0.index == s.index && Gathered(s, steps, n).0.live == s.live
    ensures |Gathered(s, steps, n).0.slots| == |s.slots|
    decreases steps
  {
    if steps > 0 && n > 0 && s.slots != [] {
      var x := s.slots[s.hand];
      var t := Passed(s, x.(ref := false));
      PassKeepsRing(s);
      assert !x.ref ==> x == x.(ref := false);
      GatherKeepsRing(t, steps - 1, if Cold(x) then n - 1 else n);
    }
  }

  // ---------- The ring never outgrows twice its fullest moment ----------

  /** The largest number of keys held so far, given that `peak` was reached before. */
  function PeakLive(s: ClockState, ops: seq<HookOp>, peak: int): int
    decreases |ops|
  {
    var now := Max(peak, s.live);
    if ops == [] then now else PeakLive(Applied(s, ops[0]), ops[1..], now)
  }

  lemma InsertOfTracked(s: ClockState, key: Key)
    requires key in s.index
    ensures |Inserted(s, key).slots| == |s.slots| && Inserted(s, key).live == s.live
  {
  }

  lemma HookKeepsRing(s: ClockState, op: HookOp)
    requires Ring(s) && (op.Insertion? ==> op.key != "")
    ensures Ring(Applied(s, op))
  {
    match op {
      case Hit(key) => MarkKeepsRing(s, key);
      case Insertion(key) => InsertKeepsRing(s, key);
      case Removal(key) => RemoveKeepsRing(s, key);
      case AskVictim => VictimKeepsRing(s);
      case AskBatch(n) =>
        if n > 0 {
          GatherKeepsRing(s, 2 * |s.slots|, n);
        }
    }
  }

  lemma HookKeepsCapBound(s: ClockState, op: HookOp, peak: int)
    requires Ring(s) && s.live <= peak && |s.slots| < 2 * Max(1, peak)
    requires op.Insertion? ==> op.key != ""
    ensures var t := Applied(s, op); Ring(t) && |t.slots| < 2 * Max(1, Max(peak, t.live))
  {
    hide Ring, Inserted, Grown, VictimOf, VictimFound, Gathered;
    match op {
      case Hit(key) => MarkKeepsRing(s, key);
      case Insertion(key) =>
        InsertKeepsRing(s, key);
        GrowKeepsRing(s);
        if key in s.index {
          InsertOfTracked(s, key);
        }
      case Removal(key) => RemoveKeepsRing(s, key);
      case AskVictim => VictimKeepsRing(s);
      case AskBatch(n) =>
        if n > 0 {
          GatherKeepsRing(s, 2 * |s.slots|, n);
        }
    }
  }

  /** Over every run of hooks the ring stays well formed, and its capacity is below twice the largest
      number of keys ever held. */
  lemma {:induction false} CapBelowTwicePeak(s: ClockState, ops: seq<HookOp>, peak: int)
    requires Ring(s) && s.live <= peak && |s.slots| < 2 * Max(1, peak) && KeysNonEmpty(ops)
    ensures Ring(AllApplied(s, ops))
    ensures |AllApplied(s, ops).slots| < 2 * Max(1, PeakLive(s, ops, peak))
    decreases |ops|
  {
    if ops != [] {
      HookKeepsCapBound(s, ops[0], peak);
      var t := Applied(s, ops[0]);
      CapBelowTwicePeak(t, ops[1..], Max(peak, t.live));
      PeakAbsorbs(t, ops[1..], peak);
    }
  }

  lemma PeakAbsorbs(s: ClockState, ops: seq<HookOp>, peak: int)
    ensures PeakLive(s, ops, peak) == PeakLive(s, ops, Max(peak, s.live))
  {
  }

  // ---------- Bits cleared are bits that were set ----------

  function Bits(s: ClockState): nat {
    Tally(s.slots, RefBit)
  }

  /** How many reference bits the hand clears in this call. */
  function ClearedBy(s: ClockState, op: HookOp): int {
    if op.AskVictim? || op.AskBatch? then Bits(s) - Bits(Applied(s, op)) else 0
  }

  function TotalCleared(s: ClockState, ops: seq<HookOp>): int
    decreases |ops|
  {
    if ops == [] then 0 else ClearedBy(s, ops[0]) + TotalCleared(Applied(s, ops[0]), ops[1..])
  }

  /** The number of calls that may set a bit. */
  function Settings(ops: seq<HookOp>): nat {
    if ops == [] then 0
    else (if ops[0].Hit? || ops[0].Insertion? then 1 else 0) + Settings(ops[1..])
  }

  lemma {:induction false} SweepOnlyClears(s: ClockState, steps: nat)
    ensures Bits(Swept(s, steps).0) <= Bits(s)
    decreases steps
  {
    if steps > 0 && s.hand < |s.slots| {
      var x := s.slots[s.hand];
      TallyUpdate(s.slots, s.hand, x, RefBit);
      TallyUpdate(s.slots, s.hand, x.(ref := false), RefBit);
      SweepOnlyClears(Passed(s, x), steps - 1);
      SweepOnlyClears(Passed(s, x.(ref := false)), steps - 1);
    }
  }

  lemma {:induction false} GatherOnlyClears(s: ClockState, steps: nat, n: nat)
    ensures Bits(Gathered(s, steps, n).0) <= Bits(s)
    decreases steps
  {
    if steps > 0 && n > 0 && s.hand < |s.slots| {
      var x := s.slots[s.hand];
      TallyUpdate(s.slots, s.hand, x, RefBit);
      TallyUpdate(s.slots, s.hand, x.(ref := false), RefBit);
      GatherOnlyClears(Passed(s, x), steps - 1, n);
      GatherOnlyClears(Passed(s, x), steps - 1, n - 1);
      GatherOnlyClears(Passed(s, x.(ref := false)), steps - 1, n);
    }
  }

  lemma HookBits(s: ClockState, op: HookOp)
    ensures Bits(Applied(s, op)) <= Bits(s) + Settings([op])
    ensures ClearedBy(s, op) >= 0
  {
    assert Settings([op]) == if op.Hit? || op.Insertion? then 1 else 0;
    match op {
      case Hit(key) => MarkSetsOne(s, key);
      case Insertion(key) =>
        MarkSetsOne(s, key);
        if key !in s.index {
          var g := Grown(s);
          GrowthSetsNoBits(s);
          hide Grown;
          if InsertReturns(s, key) {
            TallyUpdate(g.slots, Probe(g.slots, g.hand, |g.slots|), Slot(key, true), RefBit);
          }
        }
      case Removal(key) =>
        if key in s.index && s.index[key] < |s.slots| {
          TallyUpdate(s.slots, s.index[key], EMPTY, RefBit);
        }
      case AskVictim => SweepOnlyClears(s, 2 * |s.slots|);
      case AskBatch(n) =>
        if n > 0 {
          GatherOnlyClears(s, 2 * |s.slots|, n);
        }
    }
  }

  lemma MarkSetsOne(s: ClockState, key: Key)
    ensures Bits(Marked(s, key)) <= Bits(s) + 1
  {
    if key in s.index && s.index[key] < |s.slots| {
      TallyUpdate(s.slots, s.index[key], s.slots[s.index[key]].(ref := true), RefBit);
    }
  }

  /** Over any run the hand clears no more bits than insertions and accesses have set: the walks are
      paid for by the hooks. */
  lemma {:induction false} ClearingIsPaidFor(s: ClockState, ops: seq<HookOp>)
    ensures TotalCleared(s, ops) + Bits(AllApplied(s, ops)) <= Bits(s) + Settings(ops)
    ensures TotalCleared(s, ops) >= 0
    decreases |ops|
  {
    if ops != [] {
      HookBits(s, ops[0]);
      ClearingIsPaidFor(Applied(s, ops[0]), ops[1..]);
      assert Settings([ops[0]]) + Settings(ops[1..]) == Settings(ops);
    }
  }

  // ---------- Batch eviction ----------

  predicate Hot(x: Slot) {
    x.key != "" && x.ref
  }

  predicate Full(x: Slot) {
    x.key != ""
  }

  /** The keys of the slots that satisfy `keep`, in ring order. */
  function Pick(q: seq<Slot>, keep: Slot -> bool): seq<Key> {
    if q == [] then []
    else (if keep(q[0]) then [q[0].key] else []) + Pick(q[1..], keep)
  }

  function Take(keys: seq<Key>, n: nat): seq<Key> {
    if n < |keys| then keys[..n] else keys
  }

  lemma {:induction false} PickConcat(a: seq<Slot>, b: seq<Slot>, keep: Slot -> bool)
    ensures Pick(a + b, keep) == Pick(a, keep) + Pick(b, keep)
  {
    if a == [] {
      assert a + b == b;
    } else {
      assert (a + b)[1..] == a[1..] + b;
      PickConcat(a[1..], b, keep);
    }
  }

  lemma {:induction false} PickCleared(q: seq<Slot>)
    ensures Pick(Cleared(q), Cold) == Pick(q, Full) && Pick(Cleared(q), Hot) == []
  {
    if q != [] {
      assert Cleared(q)[1..] == Cleared(q[1..]);
      PickCleared(q[1..]);
    }
  }

  lemma {:induction false} PickNoneCold(q: seq<Slot>)
    requires NoneCold(q)
    ensures Pick(q, Cold) == [] && Pick(q, Full) == Pick(q, Hot)
  {
    if q != [] {
      assert !Cold(q[0]);
      PickNoneCold(q[1..]);
    }
  }

  lemma {:induction false} PickCounts(q: seq<Slot>)
    ensures |Pick(q, Cold)| + |Pick(q, Hot)| == |Pick(q, Full)| == Tally(q, OccupiedBit)
  {
    if q != [] {
      PickCounts(q[1..]);
    }
  }

  /** What the batch walk would pick in `steps` steps if it had no limit. */
  function Emitted(s: ClockState, steps: nat): seq<Key>
    decreases steps
  {
    if steps == 0 || s.hand >= |s.slots| then []
    else
      var x := s.slots[s.hand];
      (if Cold(x) then [x.key] else []) + Emitted(Passed(s, x.(ref := false)), steps - 1)
  }

  lemma {:induction false} GatherIsLimitedWalk(s: ClockState, steps: nat, n: nat)
    requires Ring(s)
    ensures Gathered(s, steps, n).1 == Take(Emitted(s, steps), n)
    decreases steps
  {
    if steps > 0 && n > 0 && s.slots != [] {
      var x := s.slots[s.hand];
      PassKeepsRing(s);
      assert !x.ref ==> x == x.(ref := false);
      GatherIsLimitedWalk(Passed(s, x.(ref := false)), steps - 1, if Cold(x) then n - 1 else n);
    }
  }

  lemma PickTurned(q: seq<Slot>, x: Slot, m: nat)
    requires 0 < m <= |q|
    ensures Pick(q[..m], Cold) == (if Cold(q[0]) then [q[0].key] else []) + Pick((q[1..] + [x])[..m - 1], Cold)
  {
    assert q[..m][1..] == (q[1..] + [x])[..m - 1];
  }

  lemma ConcatAssociates(a: seq<Key>, b: seq<Key>, c: seq<Key>)
    ensures (a + b) + c == a + (b + c)
  {
  }

  lemma EmittedAtStart(s: ClockState, steps: nat)
    requires Ring(s)
    ensures Emitted(s, steps) == Pick(Turn(s)[..0], Cold) + Emitted(Walked(s, 0), steps)
  {
  }

  lemma EmittedFirst(s: ClockState, m: nat, steps: nat)
    requires Ring(s) && 0 < m <= |s.slots| && m <= steps
    ensures s.hand < |s.slots|
    ensures var y := s.slots[s.hand]; var x := y.(ref := false); var t := Passed(s, x);
            && Ring(t) && t.hand < |t.slots| == |Turn(t)| == |s.slots| == |Turn(s)| && Turn(t) == Turn(s)[1..] + [x]
            && Turn(s)[0] == y && Walked(s, m) == Walked(t, m - 1)
            && Emitted(s, steps) == (if Cold(y) then [y.key] else []) + Emitted(t, steps - 1)
  {
    PassKeepsRing(s);
    TurnAfterPass(s, s.slots[s.hand].(ref := false));
    hide Ring, Turn;
  }

  lemma {:induction false} EmittedAlongWalk(s: ClockState, m: nat, steps: nat)
    requires Ring(s) && m <= |s.slots| && m <= steps
    ensures Emitted(s, steps) == Pick(Turn(s)[..m], Cold) + Emitted(Walked(s, m), steps - m)
    decreases m
  {
    hide Ring, Emitted, Walked, Pick, Passed, Cold;
    if m == 0 {
      EmittedAtStart(s, steps);
    } else {
      EmittedFirst(s, m, steps);
      var y := s.slots[s.hand];
      var x := y.(ref := false);
      var t := Passed(s, x);
      hide Turn;
      EmittedAlongWalk(t, m - 1, steps - 1);
      PickTurned(Turn(s), x, m);
      ConcatAssociates(if Cold(y) then [y.key] else [], Pick(Turn(t)[..m - 1], Cold), Emitted(Walked(t, m - 1), steps - m));
    }
  }

  lemma EmittedInOneLap(s: ClockState, steps: nat)
    requires Ring(s) && steps >= |s.slots|
    ensures Emitted(s, steps) == Pick(Turn(s), Cold) + Emitted(Walked(s, |s.slots|), steps - |s.slots|)
  {
    EmittedAlongWalk(s, |s.slots|, steps);
    assert Turn(s)[..|s.slots|] == Turn(s);
  }

  lemma OrderLength(s: ClockState)
    requires Ring(s)
    ensures |EvictionOrder(Turn(s))| == |Pick(Turn(s), Full)| == s.live
  {
    PickCounts(Turn(s));
    TallyConcat(s.slots[..s.hand], s.slots[s.hand..], OccupiedBit);
    TallyConcat(s.slots[s.hand..], s.slots[..s.hand], OccupiedBit);
    assert s.slots[..s.hand] + s.slots[s.hand..] == s.slots;
  }

  /** The batch is the cold keys in ring order, then every key in ring order again. */
  lemma EmittedInTwoLaps(s: ClockState)
    requires Ring(s)
    ensures Emitted(s, 2 * |s.slots|) == Pick(Turn(s), Cold) + Pick(Turn(s), Full)
  {
    var q, cap := Turn(s), |s.slots|;
    EmittedInOneLap(s, 2 * cap);
    WalkTurnsRing(s, cap);
    var lap := Walked(s, cap);
    assert Turn(lap) == Cleared(q);
    EmittedInOneLap(lap, cap);
    assert Emitted(Walked(lap, cap), 0) == [];
    PickCleared(q);
    hide *;
    assert Pick(q, Full) + [] == Pick(q, Full);
  }

  lemma BatchPicks(s: ClockState, n: int)
    requires Ring(s)
    ensures CandidatesOf(s, n).1 == Take(Pick(Turn(s), Cold) + Pick(Turn(s), Full), Max(n, 0))
    ensures n <= 0 || s.index == map[] ==> CandidatesOf(s, n).0 == s
  {
    LiveCountsKeys(s);
    var q, cap := Turn(s), |s.slots|;
    OrderLength(s);
    if s.live != 0 && n > 0 {
      GatherIsLimitedWalk(s, 2 * cap, n);
      EmittedInTwoLaps(s);
      hide Gathered, Emitted, Pick, Turn, Walked, Ring;
    }
  }

  function VictimRounds(s: ClockState, n: nat): seq<Key>
    decreases n
  {
    var (t, victim) := VictimOf(s);
    if n == 0 || victim.None? then []
    else [victim.value] + VictimRounds(Removed(t, victim.value), n - 1)
  }

  /** The order in which single evictions empty the ring. */
  function EvictionOrder(q: seq<Slot>): seq<Key> {
    Pick(q, Cold) + Pick(q, Hot)
  }

  /** The ring after its victim at distance `j` has been found and removed. */
  function Evicted(q: seq<Slot>, j: nat): seq<Slot>
    requires j < |q|
  {
    [EMPTY] + if Cold(q[j]) then q[j + 1..] + Cleared(q[..j]) else Cleared(q[j + 1..] + q[..j])
  }

  lemma PickSingle(x: Slot, keep: Slot -> bool)
    ensures Pick([x], keep) == if keep(x) then [x.key] else []
  {
    assert [x][1..] == [];
  }

  lemma PickAround(a: seq<Slot>, x: Slot, b: seq<Slot>, keep: Slot -> bool)
    ensures Pick(a + ([x] + b), keep) == Pick(a, keep) + ((if keep(x) then [x.key] else []) + Pick(b, keep))
  {
    hide Pick;
    PickConcat(a, [x] + b, keep);
    PickConcat([x], b, keep);
    PickSingle(x, keep);
  }

  lemma PickBehindFree(b: seq<Slot>, a: seq<Slot>, keep: Slot -> bool)
    requires !keep(EMPTY)
    ensures Pick([EMPTY] + (b + a), keep) == Pick(b, keep) + Pick(a, keep)
  {
    hide Pick;
    PickConcat([EMPTY], b + a, keep);
    PickSingle(EMPTY, keep);
    PickConcat(b, a, keep);
  }

  lemma TakeOutFirst(k: Key, c: seq<Key>, h: seq<Key>, d: seq<Key>)
    ensures ([] + ([k] + c)) + (h + ([] + d)) == [k] + ((c + h) + (d + []))
  {
  }

  lemma EvictColdKey(q: seq<Slot>, j: nat)
    requires FirstCold(q, j)
    ensures EvictionOrder(q) == [q[j].key] + EvictionOrder(Evicted(q, j))
  {
    var a, x, b := q[..j], q[j], q[j + 1..];
    assert q == a + ([x] + b);
    assert NoneCold(a) && Cold(x) && !Hot(x) && !Cold(EMPTY) && !Hot(EMPTY);
    hide Pick, Cold, Hot, NoneCold, FirstCold, Cleared;
    PickAround(a, x, b, Cold);
    PickAround(a, x, b, Hot);
    PickNoneCold(a);
    PickCleared(a);
    PickBehindFree(b, Cleared(a), Cold);
    PickBehindFree(b, Cleared(a), Hot);
    TakeOutFirst(x.key, Pick(b, Cold), Pick(a, Hot), Pick(b, Hot));
  }

  lemma EvictAfterLap(q: seq<Slot>, j: nat)
    requires NoneCold(q) && FirstOccupied(q, j)
    ensures EvictionOrder(q) == [q[j].key] + EvictionOrder(Evicted(q, j))
  {
    var a, x, b := q[..j], q[j], q[j + 1..];
    assert q == a + ([x] + b);
    PickNoneCold(q);
    PickConcat(a, [x] + b, Full);
    PickConcat([x], b, Full);
    PickEmpties(a);
    PickCleared(b + a);
    PickConcat(b, a, Full);
    PickConcat([EMPTY], Cleared(b + a), Cold);
    PickConcat([EMPTY], Cleared(b + a), Hot);
    assert !Cold(q[j]);
  }

  lemma {:induction false} PickEmpties(q: seq<Slot>)
    requires forall i :: 0 <= i < |q| ==> q[i].key == ""
    ensures Pick(q, Full) == []
  {
    if q != [] {
      PickEmpties(q[1..]);
    }
  }

  lemma RemoveUnderHand(t: ClockState)
    requires Ring(t) && t.slots != [] && t.slots[t.hand].key != ""
    ensures Ring(Removed(t, t.slots[t.hand].key))
    ensures Turn(Removed(t, t.slots[t.hand].key)) == [EMPTY] + Turn(t)[1..]
  {
    RemoveKeepsRing(t, t.slots[t.hand].key);
    assert t.index[t.slots[t.hand].key] == t.hand;
    hide Ring;
    assert Turn(t)[0] == t.slots[t.hand];
  }

  lemma EvictionTurnsRing(s: ClockState) returns (j: nat)
    requires Ring(s) && s.live > 0
    ensures j < |Turn(s)| && VictimOf(s).1 == Some(Turn(s)[j].key)
    ensures Ring(Removed(VictimOf(s).0, Turn(s)[j].key))
    ensures Turn(Removed(VictimOf(s).0, Turn(s)[j].key)) == Evicted(Turn(s), j)
    ensures if NoneCold(Turn(s)) then FirstOccupied(Turn(s), j) else FirstCold(Turn(s), j)
  {
    j := VictimMeetsRingSpec(s);
    var q, t := Turn(s), VictimOf(s).0;
    assert t.slots[t.hand] == Turn(t)[0];
    assert t.slots[t.hand].key == q[j].key != "";
    RemoveUnderHand(t);
    EvictedTail(q, j, Turn(t));
  }

  lemma EvictedTail(q: seq<Slot>, j: nat, r: seq<Slot>)
    requires j < |q|
    requires r == if Cold(q[j]) then q[j..] + Cleared(q[..j]) else Cleared(q[j..] + q[..j])
    ensures [EMPTY] + r[1..] == Evicted(q, j)
  {
    hide Cold;
    TailOfConcat(q[j..], Cleared(q[..j]));
    TailOfConcat(q[j..], q[..j]);
    assert q[j..][1..] == q[j + 1..];
    assert Cleared(q[j..] + q[..j])[1..] == Cleared((q[j..] + q[..j])[1..]);
  }

  lemma TailOfConcat(a: seq<Slot>, b: seq<Slot>)
    requires a != []
    ensures (a + b)[1..] == a[1..] + b
  {
  }

  lemma TakeOne(key: Key, rest: seq<Key>, n: nat)
    requires n > 0
    ensures Take([key] + rest, n) == [key] + Take(rest, n - 1)
  {
  }

  /** Single evictions take the cold keys in ring order, then the referenced ones in ring order. */
  lemma {:induction false} RoundsFollowEvictionOrder(s: ClockState, n: nat)
    requires Ring(s)
    ensures VictimRounds(s, n) == Take(EvictionOrder(Turn(s)), n)
    decreases n
  {
    if s.live == 0 {
      OrderLength(s);
    } else if n > 0 {
      var j := EvictionHeadsOrder(s);
      hide Ring, Turn, EvictionOrder, Take;
      var key := Turn(s)[j].key;
      var t := Removed(VictimOf(s).0, key);
      RoundsFollowEvictionOrder(t, n - 1);
      TakeOne(key, EvictionOrder(Turn(t)), n);
    }
  }

  /** The next victim is the head of the eviction order, and removing it leaves the rest of the order. */
  lemma EvictionHeadsOrder(s: ClockState) returns (j: nat)
    requires Ring(s) && s.live > 0
    ensures j < |Turn(s)| && VictimOf(s).1 == Some(Turn(s)[j].key)
    ensures Ring(Removed(VictimOf(s).0, Turn(s)[j].key))
    ensures EvictionOrder(Turn(s)) == [Turn(s)[j].key] + EvictionOrder(Turn(Removed(VictimOf(s).0, Turn(s)[j].key)))
  {
    j := EvictionTurnsRing(s);
    hide Ring, Turn, EvictionOrder;
    if NoneCold(Turn(s)) {
      EvictAfterLap(Turn(s), j);
    } else {
      EvictColdKey(Turn(s), j);
    }
  }

  // ---------- When the batch is right ----------

  /** The number of keys in front of the first cold slot. */
  function LeadingHot(q: seq<Slot>): nat {
    if q == [] || Cold(q[0]) then 0
    else (if Full(q[0]) then 1 else 0) + LeadingHot(q[1..])
  }

  ghost predicate DistinctKeys(q: seq<Slot>) {
    forall i, j :: 0 <= i < j < |q| && q[i].key != "" ==> q[i].key != q[j].key
  }

  lemma {:induction false} PickedFrom(q: seq<Slot>, keep: Slot -> bool, key: Key)
    requires key in Pick(q, keep)
    ensures exists i :: 0 <= i < |q| && q[i].key == key && keep(q[i])
  {
    if !(keep(q[0]) && q[0].key == key) {
      PickedFrom(q[1..], keep, key);
      var i :| 0 <= i < |q[1..]| && q[1..][i].key == key && keep(q[1..][i]);
      assert q[i + 1].key == key;
    }
  }

  lemma {:induction false} PickDistinct(q: seq<Slot>, keep: Slot -> bool)
    requires DistinctKeys(q) && forall x :: keep(x) ==> Full(x)
    ensures NoDup(Pick(q, keep))
  {
    if q != [] {
      PickDistinct(q[1..], keep);
      if keep(q[0]) && q[0].key in Pick(q[1..], keep) {
        PickedFrom(q[1..], keep, q[0].key);
        assert false;
      }
    }
  }

  lemma OrderDistinct(q: seq<Slot>)
    requires DistinctKeys(q)
    ensures NoDup(EvictionOrder(q)) && NoDup(Pick(q, Full))
  {
    PickDistinct(q, Cold);
    PickDistinct(q, Hot);
    PickDistinct(q, Full);
    forall key | key in Pick(q, Cold)
      ensures key !in Pick(q, Hot)
    {
      PickedFrom(q, Cold, key);
      if key in Pick(q, Hot) {
        PickedFrom(q, Hot, key);
        assert false;
      }
    }
    NoDupConcat(Pick(q, Cold), Pick(q, Hot));
  }

  /** Ring order and the order of the hot keys agree exactly up to the first cold key. */
  lemma {:induction false} OrdersPartAtFirstCold(q: seq<Slot>)
    ensures var d := LeadingHot(q);
            && d <= |Pick(q, Hot)| && d <= |Pick(q, Full)|
            && Pick(q, Full)[..d] == Pick(q, Hot)[..d]
            && (Pick(q, Cold) != [] ==> d < |Pick(q, Full)| && Pick(q, Full)[d] == Pick(q, Cold)[0])
  {
    if q != [] {
      var rest, d := q[1..], LeadingHot(q);
      OrdersPartAtFirstCold(rest);
      if Hot(q[0]) {
        assert Pick(q, Full) == [q[0].key] + Pick(rest, Full);
        assert Pick(q, Hot) == [q[0].key] + Pick(rest, Hot);
        assert Pick(q, Cold) == Pick(rest, Cold);
        assert Pick(q, Full)[..d] == [q[0].key] + Pick(rest, Full)[..d - 1];
        assert Pick(q, Hot)[..d] == [q[0].key] + Pick(rest, Hot)[..d - 1];
      } else if !Cold(q[0]) {
        assert Pick(q, Full) == Pick(rest, Full) && Pick(q, Hot) == Pick(rest, Hot);
        assert Pick(q, Cold) == Pick(rest, Cold);
      }
    }
  }

  /** When `b` and `c` agree up to `d` and `b[d]` is in `a`, the prefixes of `a + b` and `a + c` part there. */
  lemma PrefixesPart(a: seq<Key>, b: seq<Key>, c: seq<Key>, d: nat, n: nat)
    requires a != [] && d <= |b| && d <= |c| && b[..d] == c[..d]
    requires d < |b| && b[d] in a && NoDup(a + c)
    ensures Take(a + b, n) == Take(a + c, n) <==> n <= |a| + d
    ensures NoDup(Take(a + b, n)) <==> n <= |a| + d
  {
    if n <= |a| + d {
      assert Take(a + b, n) == Take(a + c, n) by {
        assert (a + b)[..|a| + d] == a + b[..d] == a + c[..d] == (a + c)[..|a| + d];
        assert Take(a + b, n) == (a + b)[..|a| + d][..n];
        assert Take(a + c, n) == (a + c)[..|a| + d][..n];
      }
    } else {
      var l := Take(a + b, n);
      assert l[|a| + d] == b[d];
      var i :| 0 <= i < |a| && a[i] == b[d];
      assert l[i] == l[|a| + d];
      assert NoDup(Take(a + c, n));
    }
  }

  lemma NoneColdPicks(q: seq<Slot>)
    ensures Pick(q, Cold) == [] <==> NoneCold(q)
  {
    if NoneCold(q) {
      PickNoneCold(q);
    } else {
      var i :| 0 <= i < |q| && Cold(q[i]);
      assert q == q[..i] + ([q[i]] + q[i + 1..]);
      PickConcat(q[..i], [q[i]] + q[i + 1..], Cold);
      PickConcat([q[i]], q[i + 1..], Cold);
    }
  }

  /** The batch of `n` equals `n` single evictions, and is free of repeats, exactly when no key is cold or
      `n` is at most the cold keys plus the keys the hand meets before the first cold one. */
  lemma CandidatesAreVictimRoundsIff(s: ClockState, n: int)
    requires Ring(s)
    ensures var enough := NoneCold(Turn(s)) || n <= |Pick(Turn(s), Cold)| + LeadingHot(Turn(s));
            && (CandidatesOf(s, n).1 == VictimRounds(s, Max(n, 0)) <==> enough)
            && (NoDup(CandidatesOf(s, n).1) <==> enough)
  {
    var q := Turn(s);
    var cold, hot, all := Pick(q, Cold), Pick(q, Hot), Pick(q, Full);
    BatchPicks(s, n);
    RoundsFollowEvictionOrder(s, Max(n, 0));
    KeysOnRingDistinct(s);
    OrderDistinct(q);
    NoneColdPicks(q);
    if NoneCold(q) {
      PickNoneCold(q);
    } else {
      OrdersPartAtFirstCold(q);
      PrefixesPart(cold, all, hot, LeadingHot(q), Max(n, 0));
    }
  }

  lemma KeysOnRingDistinct(s: ClockState)
    requires Ring(s)
    ensures DistinctKeys(Turn(s))
  {
    var q := Turn(s);
    forall i, j | 0 <= i < j < |q| && q[i].key != ""
      ensures q[i].key != q[j].key
    {
      assert q[i] == s.slots[Ahead(s.hand, i, |s.slots|)] && q[j] == s.slots[Ahead(s.hand, j, |s.slots|)];
    }
  }
}
