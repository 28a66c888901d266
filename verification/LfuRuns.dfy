/** Runs of LFU hook calls: how high frequencies climb when a period is set. */
module LfuRuns {
  import opened Base
  import opened LfuStates
  import opened LfuLaws

  datatype HookOp = Hit(key: Key, visit: seq<nat>) | Insertion(key: Key) | Removal(key: Key)

  function Applied(s: LfuState, op: HookOp): LfuState {
    match op
    case Hit(key, visit) => Accessed(s, key, visit)
    case Insertion(key) => Inserted(s, key)
    case Removal(key) => Removed(s, key)
  }

  function AllApplied(s: LfuState, ops: seq<HookOp>): LfuState
    decreases |ops|
  {
    if ops == [] then s else AllApplied(Applied(s, ops[0]), ops[1..])
  }

  /** Ageing passes see some order of the buckets. */
  ghost predicate Possible(s: LfuState, op: HookOp) {
    op.Hit? ==> VisitOf(s, op.key, op.visit)
  }

  ghost predicate PossibleRun(s: LfuState, ops: seq<HookOp>)
    decreases |ops|
  {
    ops != [] ==> Possible(s, ops[0]) && PossibleRun(Applied(s, ops[0]), ops[1..])
  }

  /** How many insertions are of keys that are tracked already: replacements, as the store makes them. */
  function Reinsertions(s: LfuState, ops: seq<HookOp>): nat
    decreases |ops|
  {
    if ops == [] then 0
    else (if ops[0].Insertion? && ops[0].key in s.freq then 1 else 0) + Reinsertions(Applied(s, ops[0]), ops[1..])
  }

  lemma HookKeepsInv(s: LfuState, op: HookOp)
    requires Inv(s) && Possible(s, op)
    ensures Inv(Applied(s, op)) && Applied(s, op).ageMax == s.ageMax
  {
    match op
    case Hit(key, visit) => AccessKeepsInv(s, key, visit);
    case Insertion(key) => InsertKeepsInv(s, key);
    case Removal(key) => RemoveKeepsInv(s, key);
  }

  // ---------- The bound ----------

  /** Frequencies exceed the period plus the accesses since the last pass by at most `slack`. */
  ghost predicate Bounded(s: LfuState, slack: int) {
    && Inv(s) && s.ageMax >= 1 && slack >= -1 && s.ageMax + slack >= 1
    && forall k :: k in s.freq ==> s.freq[k] <= s.ageMax + s.ageCnt + slack
  }

  lemma PassKeepsBound(t: LfuState, visit: seq<nat>, bound: int)
    requires Bucketed(t) && Lists(visit, t.buckets.Keys) && bound >= 1
    requires forall k :: k in t.freq ==> t.freq[k] <= 2 * bound + 1
    ensures forall k :: k in Aged(t, visit).freq ==> Aged(t, visit).freq[k] <= bound
  {
    AgeingMovesWholeBuckets(t, visit);
    forall k | k in t.freq
      ensures k in Aged(t, visit).freq && Aged(t, visit).freq[k] <= bound
    {
      var j := AgeingHalvesAtLeastOnce(t, visit, k);
    }
  }

  lemma HitKeepsBound(s: LfuState, key: Key, visit: seq<nat>, slack: int)
    requires Bounded(s, slack) && VisitOf(s, key, visit)
    ensures Bounded(Accessed(s, key, visit), slack)
  {
    AccessKeepsInv(s, key, visit);
    if key in s.freq {
      IncrementKeepsBuckets(s, key);
      if AgesOn(s, key) {
        PassKeepsBound(Incremented(s, key), visit, s.ageMax + slack);
      }
      hide Bucketed, Incremented, Aged;
    }
  }

  lemma HookKeepsBound(s: LfuState, op: HookOp, slack: int)
    requires Bounded(s, slack) && Possible(s, op)
    ensures Bounded(Applied(s, op), slack + Reinsertions(s, [op]))
    ensures Applied(s, op).ageMax == s.ageMax
  {
    assert [op][1..] == [];
    HookKeepsInv(s, op);
    match op {
      case Hit(key, visit) => HitKeepsBound(s, key, visit, slack);
      case Insertion(key) =>
        if key in s.freq {
          IncrementKeepsBuckets(s, key);
        }
      case Removal(key) =>
    }
  }

  /** Over every run, under every bucket order, each re-insertion raises the bound by one and nothing else
      does. */
  lemma {:induction false} ReinsertionsRaiseBound(s: LfuState, ops: seq<HookOp>, slack: int)
    requires Bounded(s, slack) && PossibleRun(s, ops)
    ensures Bounded(AllApplied(s, ops), slack + Reinsertions(s, ops))
    ensures AllApplied(s, ops).ageMax == s.ageMax
    decreases |ops|
  {
    if ops != [] {
      assert Reinsertions(s, [ops[0]]) == if ops[0].Insertion? && ops[0].key in s.freq then 1 else 0 by {
        assert [ops[0]][1..] == [];
      }
      HookKeepsBound(s, ops[0], slack);
      hide Bounded, Possible, Applied;
      ReinsertionsRaiseBound(Applied(s, ops[0]), ops[1..], slack + Reinsertions(s, [ops[0]]));
    }
  }

  /** Without re-insertions, from any state within period plus counter, no frequency reaches twice the
      period, and so the ceiling of 2^16 is out of reach. */
  lemma FrequenciesStayBelowTwicePeriod(s: LfuState, ops: seq<HookOp>)
    requires Bounded(s, 0) && PossibleRun(s, ops) && Reinsertions(s, ops) == 0
    ensures Bounded(AllApplied(s, ops), 0)
    ensures AllApplied(s, ops).ageMax == s.ageMax
    ensures forall k :: k in AllApplied(s, ops).freq ==> AllApplied(s, ops).freq[k] < 2 * s.ageMax
    ensures 2 * s.ageMax <= MAX_FREQ ==>
              forall k :: k in AllApplied(s, ops).freq ==> AllApplied(s, ops).freq[k] < MAX_FREQ
  {
    ReinsertionsRaiseBound(s, ops, 0);
  }

  // ---------- When twice the period is reached ----------

  /** A single key, of frequency `f`. */
  function Single(key: Key, f: nat, ageCnt: nat, ageMax: nat): LfuState {
    LfuState(map[f := [key]], map[key := f], ageCnt, ageMax)
  }

  lemma IncrementSingle(key: Key, f: nat, c: nat, k: nat)
    requires f < MAX_FREQ
    ensures Incremented(Single(key, f, c, k), key) == Single(key, f + 1, c, k)
  {
    var s := Single(key, f, c, k);
    assert Dropped(s.buckets, f, key) == map[] by {
      assert [key][1..] == [];
    }
    assert Pushed(map[], f + 1, key) == map[f + 1 := [key]] by {
      assert [key] + [] == [key];
    }
    assert s.freq[key := f + 1] == map[key := f + 1];
  }

  lemma AgeSingle(key: Key, f: nat, c: nat, k: nat)
    requires f > 1
    ensures Aged(Single(key, f, c, k), [f]) == Single(key, Halved(f), c, k)
  {
    var s := Single(key, f, c, k);
    assert AgedBucket(s, f) == Single(key, Halved(f), c, k) by {
      assert Reverse([key]) + [] == [key];
      assert map[f := [key]] - {f} == map[];
    }
    assert [f] == [] + [f];
    AgedOneMore(s, [], f);
  }

  lemma {:induction false} RunConcat(s: LfuState, a: seq<HookOp>, b: seq<HookOp>)
    requires PossibleRun(s, a) && PossibleRun(AllApplied(s, a), b)
    ensures PossibleRun(s, a + b) && AllApplied(s, a + b) == AllApplied(AllApplied(s, a), b)
    ensures Reinsertions(s, a + b) == Reinsertions(s, a) + Reinsertions(AllApplied(s, a), b)
    decreases |a|
  {
    if a == [] {
      assert a + b == b;
    } else {
      assert (a + b)[1..] == a[1..] + b;
      RunConcat(Applied(s, a[0]), a[1..], b);
    }
  }

  lemma RunOne(s: LfuState, op: HookOp)
    requires Possible(s, op)
    ensures PossibleRun(s, [op]) && AllApplied(s, [op]) == Applied(s, op)
    ensures Reinsertions(s, [op]) == if op.Insertion? && op.key in s.freq then 1 else 0
  {
    assert [op][1..] == [];
    assert PossibleRun(Applied(s, op), []) && AllApplied(Applied(s, op), []) == Applied(s, op);
  }

  /** Hits short of a full period only climb. */
  lemma {:induction false} Climb(key: Key, f: nat, c: nat, k: nat, n: nat) returns (ops: seq<HookOp>)
    requires c + n < k && f + n <= MAX_FREQ
    ensures var s := Single(key, f, c, k);
            PossibleRun(s, ops) && AllApplied(s, ops) == Single(key, f + n, c + n, k) && Reinsertions(s, ops) == 0
    decreases n
  {
    if n == 0 {
      ops := [];
    } else {
      var s, hit := Single(key, f, c, k), Hit(key, []);
      IncrementSingle(key, f, c, k);
      RunOne(s, hit);
      var rest := Climb(key, f + 1, c + 1, k, n - 1);
      RunConcat(s, [hit], rest);
      ops := [hit] + rest;
    }
  }

  /** The hit that completes a period. */
  lemma LastHit(key: Key, f: nat, k: nat)
    requires k >= 1 && 1 <= f < MAX_FREQ
    ensures var top, hit := Single(key, f, k - 1, k), Hit(key, [f + 1]);
            && PossibleRun(top, [hit]) && AllApplied(top, [hit]) == Single(key, (f + 1) / 2, 0, k)
            && Reinsertions(top, [hit]) == 0
  {
    IncrementSingle(key, f, k - 1, k);
    AgeSingle(key, f + 1, k - 1, k);
    assert Elems([f + 1]) == map[f + 1 := [key]].Keys;
    hide Incremented, Aged;
    RunOne(Single(key, f, k - 1, k), Hit(key, [f + 1]));
  }

  /** A full period of hits ends in a pass that halves what they reached. */
  lemma WholePeriod(key: Key, f: nat, k: nat) returns (ops: seq<HookOp>)
    requires k >= 1 && f >= 1 && f + k <= MAX_FREQ
    ensures var s := Single(key, f, 0, k);
            PossibleRun(s, ops) && AllApplied(s, ops) == Single(key, (f + k) / 2, 0, k) && Reinsertions(s, ops) == 0
  {
    hide PossibleRun, AllApplied, Reinsertions, Single;
    var climb := Climb(key, f, 0, k, k - 1);
    var hit := Hit(key, [f + k]);
    LastHit(key, f + k - 1, k);
    RunConcat(Single(key, f, 0, k), climb, [hit]);
    ops := climb + [hit];
  }

  /** Period after period, a key that gets all the hits ends one below the period. */
  lemma {:induction false} Settle(key: Key, f: nat, k: nat) returns (ops: seq<HookOp>)
    requires 1 <= f <= k - 1 && 2 * k <= MAX_FREQ
    ensures var s := Single(key, f, 0, k);
            PossibleRun(s, ops) && AllApplied(s, ops) == Single(key, k - 1, 0, k) && Reinsertions(s, ops) == 0
    decreases k - f
  {
    if f == k - 1 {
      ops := [];
    } else {
      var period := WholePeriod(key, f, k);
      var rest := Settle(key, (f + k) / 2, k);
      RunConcat(Single(key, f, 0, k), period, rest);
      ops := period + rest;
    }
  }

  /** Re-insertions climb without counting towards the period. */
  lemma {:induction false} Reinsert(key: Key, f: nat, c: nat, k: nat, r: nat) returns (ops: seq<HookOp>)
    requires f <= MAX_FREQ
    ensures var s := Single(key, f, c, k);
            && PossibleRun(s, ops) && Reinsertions(s, ops) == r
            && AllApplied(s, ops) == Single(key, Min(f + r, MAX_FREQ), c, k)
    decreases r
  {
    if r == 0 {
      ops := [];
    } else {
      var s, put := Single(key, f, c, k), Insertion(key);
      if f < MAX_FREQ {
        IncrementSingle(key, f, c, k);
      }
      RunOne(s, put);
      var rest := Reinsert(key, Min(f + 1, MAX_FREQ), c, k, r - 1);
      RunConcat(s, [put], rest);
      ops := [put] + rest;
    }
  }

  lemma FirstInsertion(key: Key, k: nat)
    ensures var put := Insertion(key);
            && PossibleRun(NewState(k), [put]) && AllApplied(NewState(k), [put]) == Single(key, 1, 0, k)
            && Reinsertions(NewState(k), [put]) == 0
  {
    RunOne(NewState(k), Insertion(key));
    assert [key] + BucketAt(map[], 1) == [key];
  }

  /** A run that takes a new key as high as hits alone can: to one below the period, and on to the next pass. */
  lemma HighestByHits(key: Key, k: nat) returns (ops: seq<HookOp>)
    requires k >= 1 && 2 * k <= MAX_FREQ
    ensures PossibleRun(NewState(k), ops) && Reinsertions(NewState(k), ops) == 0
    ensures AllApplied(NewState(k), ops) == Single(key, Max(1, 2 * k - 2), k - 1, k)
  {
    hide PossibleRun, AllApplied, Reinsertions, Single, NewState;
    FirstInsertion(key, k);
    ops := [Insertion(key)];
    if k > 1 {
      var settle := Settle(key, 1, k);
      RunConcat(NewState(k), ops, settle);
      ops := ops + settle;
      var climb := Climb(key, k - 1, 0, k, k - 1);
      RunConcat(NewState(k), ops, climb);
      ops := ops + climb;
    }
  }

  /** A run from a new LFU that takes a key to min(max(1, 2K - 2) + r, 2^16) with `r` re-insertions. */
  lemma HighestRun(key: Key, k: nat, r: nat) returns (ops: seq<HookOp>)
    requires k >= 1 && 2 * k <= MAX_FREQ
    ensures PossibleRun(NewState(k), ops) && Reinsertions(NewState(k), ops) == r
    ensures AllApplied(NewState(k), ops) == Single(key, Min(Max(1, 2 * k - 2) + r, MAX_FREQ), k - 1, k)
  {
    hide PossibleRun, AllApplied, Reinsertions, Single, NewState;
    var hits := HighestByHits(key, k);
    var again := Reinsert(key, Max(1, 2 * k - 2), k - 1, k, r);
    RunConcat(NewState(k), hits, again);
    ops := hits + again;
  }

  /** Some frequency has come to twice the period. */
  ghost predicate Escaped(s: LfuState) {
    exists k :: k in s.freq && s.freq[k] >= 2 * s.ageMax
  }

  lemma NewIsBounded(k: nat)
    requires k >= 1
    ensures Bounded(NewState(k), if k == 1 then 0 else -1)
  {
  }

  /** How many re-insertions it takes: from a new LFU of period K, a run with exactly `r` of them takes some
      frequency to 2K if and only if 2K is within the ceiling and r is at least 2, or at least 1 if K is 1. */
  lemma TwicePeriodReachedIff(k: nat, r: nat)
    requires k >= 1
    ensures (exists ops :: PossibleRun(NewState(k), ops) && Reinsertions(NewState(k), ops) == r
                           && Escaped(AllApplied(NewState(k), ops)))
            <==> 2 * k <= MAX_FREQ && r >= if k == 1 then 1 else 2
  {
    if 2 * k <= MAX_FREQ && r >= if k == 1 then 1 else 2 {
      var ops := HighestRun("", k, r);
      assert "" in AllApplied(NewState(k), ops).freq;
      assert Escaped(AllApplied(NewState(k), ops));
    } else {
      forall ops | PossibleRun(NewState(k), ops) && Reinsertions(NewState(k), ops) == r
        ensures !Escaped(AllApplied(NewState(k), ops))
      {
        NewIsBounded(k);
        ReinsertionsRaiseBound(NewState(k), ops, if k == 1 then 0 else -1);
      }
    }
  }

  function Reinserted(s: LfuState, key: Key, n: nat): LfuState {
    if n == 0 then s else Inserted(Reinserted(s, key, n - 1), key)
  }

  /** Re-insertions raise a frequency without advancing the ageing counter, whatever the period, up to the
      ceiling. */
  lemma {:induction false} ReinsertionEscapesAgeing(ageMax: nat, key: Key, n: nat)
    ensures var s := Reinserted(Inserted(NewState(ageMax), key), key, n);
            && key in s.freq && Bucketed(s)
            && s.freq[key] == Min(n + 1, MAX_FREQ)
            && s.ageCnt == 0 && s.ageMax == ageMax
  {
    if n == 0 {
      PushKeepsBuckets(NewState(ageMax), key, 1);
    } else {
      ReinsertionEscapesAgeing(ageMax, key, n - 1);
      IncrementKeepsBuckets(Reinserted(Inserted(NewState(ageMax), key), key, n - 1), key);
    }
  }
}
