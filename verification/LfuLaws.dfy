/** Laws of the LFU policy: what an ageing pass does under every order in which Go may visit the
    buckets, which key is the victim, and how high frequencies can climb. */
module LfuLaws {
  import opened Base
  import opened LfuStates

  // ---------- One ageing pass ----------

  /** Where an ageing pass that still has to visit `visit` takes the keys of frequency `f`. */
  function Landing(f: nat, visit: seq<nat>): nat
    decreases |visit|
  {
    if visit == [] then f
    else Landing(if visit[0] == f then Halved(f) else f, visit[1..])
  }

  function ShiftRight(f: nat, j: nat): nat {
    if j == 0 then f else ShiftRight(f / 2, j - 1)
  }

  /** Under every visit order the pass loses no key, keeps every key in one matching bucket, and
      takes all keys of a frequency to the same place. */
  lemma {:induction false} AgeingMovesWholeBuckets(s: LfuState, visit: seq<nat>)
    requires Bucketed(s)
    ensures Bucketed(Aged(s, visit))
    ensures Aged(s, visit).freq == map k | k in s.freq :: Landing(s.freq[k], visit)
    ensures Aged(s, visit).ageCnt == s.ageCnt && Aged(s, visit).ageMax == s.ageMax
    decreases |visit|
  {
    if visit != [] {
      AgeBucketKeepsBuckets(s, visit[0]);
      AgeingMovesWholeBuckets(AgedBucket(s, visit[0]), visit[1..]);
    }
  }

  lemma {:induction false} AgedOneMore(s: LfuState, visit: seq<nat>, f: nat)
    ensures Aged(s, visit + [f]) == AgedBucket(Aged(s, visit), f)
    decreases |visit|
  {
    if visit == [] {
      assert Aged(s, [f]) == Aged(AgedBucket(s, f), []);
    } else {
      assert (visit + [f])[1..] == visit[1..] + [f];
      AgedOneMore(AgedBucket(s, visit[0]), visit[1..], f);
    }
  }

  lemma {:induction false} AgeingKeepsUnvisited(s: LfuState, visit: seq<nat>, f: nat)
    requires f in s.buckets && f !in visit
    ensures f in Aged(s, visit).buckets
    decreases |visit|
  {
    if visit != [] {
      AgeingKeepsUnvisited(AgedBucket(s, visit[0]), visit[1..], f);
    }
  }

  /** The keys of frequency `f` are those listed in bucket `f`. */
  ghost predicate ListsFrequency(s: LfuState, f: nat) {
    && f in s.buckets
    && (forall k :: k in s.buckets[f] ==> k in s.freq)
    && (forall k :: k in s.freq ==> (s.freq[k] == f <==> k in s.buckets[f]))
  }

  lemma BucketListsFrequency(s: LfuState, f: nat)
    requires Bucketed(s) && f in s.buckets
    ensures ListsFrequency(s, f)
  {
    forall k | k in s.buckets[f]
      ensures k in s.freq && s.freq[k] == f
    {
      var i :| 0 <= i < |s.buckets[f]| && s.buckets[f][i] == k;
    }
  }

  lemma VisitedInTurn(s: LfuState, visit: seq<nat>, i: nat)
    requires Bucketed(s) && Lists(visit, s.buckets.Keys) && i < |visit|
    ensures visit[i] in s.buckets && visit[i] >= 1 && visit[i] !in visit[..i]
  {
    assert visit[i] in Elems(visit);
  }

  /** When the pass comes to its next bucket, that bucket is there and lists the keys of its frequency. */
  lemma NextBucketToAge(s: LfuState, visit: seq<nat>, i: nat)
    requires Bucketed(s) && Lists(visit, s.buckets.Keys) && i < |visit|
    ensures visit[i] >= 1 && ListsFrequency(Aged(s, visit[..i]), visit[i]) && Bucketed(Aged(s, visit[..i]))
    ensures Aged(s, visit[..i + 1]) == AgedBucket(Aged(s, visit[..i]), visit[i])
  {
    hide *;
    VisitedInTurn(s, visit, i);
    AgedOneMore(s, visit[..i], visit[i]);
    assert visit[..i + 1] == visit[..i] + [visit[i]];
    AgeingKeepsUnvisited(s, visit[..i], visit[i]);
    AgeingMovesWholeBuckets(s, visit[..i]);
    BucketListsFrequency(Aged(s, visit[..i]), visit[i]);
  }

  /** The state once the first `m` elements of bucket `f` have been popped and pushed. */
  ghost function Popped(s: LfuState, f: nat, m: nat): (t: LfuState)
    requires f in s.buckets && m <= |s.buckets[f]|
    ensures f in t.buckets && Halved(f) in t.buckets && t.ageCnt == s.ageCnt && t.ageMax == s.ageMax
    ensures f > 1 ==> t.buckets[f] == s.buckets[f][m..]
  {
    var source, h := s.buckets[f], Halved(f);
    s.(buckets := s.buckets[f := source[m..]][h := Reverse(source[..m]) + BucketAt(s.buckets, h)],
       freq := map k | k in s.freq :: if k in source[..m] then h else s.freq[k])
  }

  lemma PopNone(s: LfuState, f: nat)
    requires f in s.buckets && f > 1
    ensures Popped(s, f, 0) == s.(buckets := s.buckets[Halved(f) := BucketAt(s.buckets, Halved(f))])
  {
    var source, h := s.buckets[f], Halved(f);
    assert source[0..] == source && source[..0] == [];
    assert Reverse(source[..0]) + BucketAt(s.buckets, h) == BucketAt(s.buckets, h);
    assert s.buckets[f := source] == s.buckets;
    assert Popped(s, f, 0).freq == s.freq;
  }

  lemma PopOne(s: LfuState, f: nat, m: nat)
    requires ListsFrequency(s, f) && f > 1 && m < |s.buckets[f]|
    ensures var t, key := Popped(s, f, m), s.buckets[f][m];
            && t.buckets[f] == [key] + s.buckets[f][m + 1..]
            && Halved(f) in t.buckets && key in t.freq
            && Popped(s, f, m + 1).buckets ==
                 t.buckets[f := t.buckets[f][1..]][Halved(f) := [key] + t.buckets[Halved(f)]]
            && Popped(s, f, m + 1).freq == t.freq[key := Halved(f)]
  {
    var source, t, h := s.buckets[f], Popped(s, f, m), Halved(f);
    assert source[..m + 1] == source[..m] + [source[m]];
    assert t.buckets[f] == source[m..] == [source[m]] + source[m + 1..];
    assert Reverse(source[..m + 1]) + BucketAt(s.buckets, h) == [source[m]] + t.buckets[h];
    assert source[m] in s.freq;
  }

  lemma PopAll(s: LfuState, f: nat)
    requires ListsFrequency(s, f) && f > 1
    ensures var t := Popped(s, f, |s.buckets[f]|);
            t.buckets[f] == [] && AgedBucket(s, f) == t.(buckets := t.buckets - {f})
  {
    var source := s.buckets[f];
    assert source[..|source|] == source && source[|source|..] == [];
    assert AgedBucket(s, f).freq == Popped(s, f, |source|).freq;
    assert AgedBucket(s, f).buckets == Popped(s, f, |source|).buckets - {f};
  }

  lemma {:induction false} LandingIsAShift(f: nat, visit: seq<nat>) returns (j: nat)
    requires f >= 1
    ensures Landing(f, visit) == Max(1, ShiftRight(f, j))
    ensures f in visit ==> j >= 1
    ensures 1 <= Landing(f, visit) <= f
    ensures f in visit ==> Landing(f, visit) <= Halved(f)
    decreases |visit|
  {
    if visit == [] {
      j := 0;
    } else if visit[0] == f {
      var i := LandingIsAShift(Halved(f), visit[1..]);
      if f == 1 {
        j := 1;
        ShiftOfOne(i);
      } else {
        j := i + 1;
      }
    } else {
      j := LandingIsAShift(f, visit[1..]);
    }
  }

  lemma {:induction false} ShiftOfOne(j: nat)
    ensures ShiftRight(1, j) <= 1 && ShiftRight(0, j) == 0
  {
    if j > 0 {
      ShiftOfOne(j - 1);
    }
  }

  /** Every key's frequency is shifted right at least once, never below 1. */
  lemma AgeingHalvesAtLeastOnce(s: LfuState, visit: seq<nat>, key: Key) returns (j: nat)
    requires Bucketed(s) && Lists(visit, s.buckets.Keys) && key in s.freq
    ensures j >= 1 && key in Aged(s, visit).freq
    ensures Aged(s, visit).freq[key] == Max(1, ShiftRight(s.freq[key], j))
    ensures Aged(s, visit).freq[key] <= Halved(s.freq[key])
  {
    AgeingMovesWholeBuckets(s, visit);
    assert s.freq[key] in Elems(visit);
    j := LandingIsAShift(s.freq[key], visit);
  }

  /** A bucket is halved twice when the bucket it is merged into is visited after it. */
  ghost predicate HalvedAgain(visit: seq<nat>, i: nat, j: nat)
    requires i < |visit| && j < |visit|
  {
    i < j && visit[j] == visit[i] / 2 && visit[j] > 1
  }

  lemma {:induction false} LandingExact(f: nat, visit: seq<nat>, i: nat)
    requires NoDup(visit) && i < |visit| && visit[i] == f && f >= 1
    ensures Landing(f, visit) == Halved(f) <==> forall j :: 0 <= j < |visit| ==> !HalvedAgain(visit, i, j)
    decreases |visit|
  {
    var rest := visit[1..];
    if i == 0 {
      var h := Halved(f);
      if h in rest && h > 1 {
        var q := LandingIsAShift(h, rest);
        var p :| 0 <= p < |rest| && rest[p] == h;
        assert HalvedAgain(visit, 0, p + 1);
      } else {
        LandingElsewhere(h, rest);
        assert forall j :: 0 < j < |visit| ==> visit[j] == rest[j - 1];
      }
    } else {
      LandingExact(f, rest, i - 1);
      var i' := i - 1;
      assert !HalvedAgain(visit, i, 0);
      forall j | 0 <= j < |rest|
        ensures HalvedAgain(rest, i', j) == HalvedAgain(visit, i, j + 1)
      {
      }
      assert forall j :: 0 < j < |visit| ==> HalvedAgain(visit, i, j) == HalvedAgain(rest, i', j - 1);
    }
  }

  lemma {:induction false} LandingElsewhere(f: nat, visit: seq<nat>)
    requires f !in visit || f == 1
    ensures Landing(f, visit) == f
    decreases |visit|
  {
    if visit != [] {
      LandingElsewhere(f, visit[1..]);
    }
  }

  /** The pass halves every frequency exactly once, for every key, exactly when no bucket is visited
      after one that was merged into it. */
  lemma AgeingExactIff(s: LfuState, visit: seq<nat>)
    requires Bucketed(s) && Lists(visit, s.buckets.Keys)
    ensures Exact(s, visit)
            <==> (forall i, j :: 0 <= i < |visit| && 0 <= j < |visit| ==> !HalvedAgain(visit, i, j))
  {
    AgeingMovesWholeBuckets(s, visit);
    forall i | 0 <= i < |visit|
      ensures visit[i] in s.buckets && s.buckets[visit[i]][0] in s.freq && s.freq[s.buckets[visit[i]][0]] == visit[i]
      ensures Landing(visit[i], visit) == Halved(visit[i])
              <==> forall j :: 0 <= j < |visit| ==> !HalvedAgain(visit, i, j)
    {
      assert visit[i] in Elems(visit);
      LandingExact(visit[i], visit, i);
    }
    forall k | k in s.freq
      ensures exists i :: 0 <= i < |visit| && visit[i] == s.freq[k]
    {
      assert s.freq[k] in Elems(visit);
    }
  }

  /** Two buckets of which one is halved into the other. */
  ghost predicate Chained(s: LfuState, f: nat, g: nat) {
    f in s.buckets && g in s.buckets && g == f / 2 && g > 1
  }

  ghost predicate Exact(s: LfuState, visit: seq<nat>) {
    forall k :: k in s.freq ==> k in Aged(s, visit).freq && Aged(s, visit).freq[k] == Halved(s.freq[k])
  }

  lemma UnchainedNeverHalvedAgain(s: LfuState, visit: seq<nat>)
    requires Bucketed(s) && Lists(visit, s.buckets.Keys)
    requires forall f, g :: !Chained(s, f, g)
    ensures Exact(s, visit)
  {
    forall i, j | 0 <= i < |visit| && 0 <= j < |visit|
      ensures !HalvedAgain(visit, i, j)
    {
      assert visit[i] in Elems(visit) && visit[j] in Elems(visit);
      assert !Chained(s, visit[i], visit[j]);
    }
    AgeingExactIff(s, visit);
  }

  /** The bucket that is merged into another one may be visited first. */
  lemma ChainedMayBeHalvedAgain(s: LfuState, f: nat, g: nat) returns (visit: seq<nat>)
    requires Bucketed(s) && Chained(s, f, g)
    ensures Lists(visit, s.buckets.Keys) && !Exact(s, visit)
  {
    var rest := OrderExists(s.buckets.Keys - {f});
    visit := [f] + rest;
    assert f !in Elems(rest) && Elems(visit) == {f} + Elems(rest);
    assert g in Elems(rest);
    var j :| 0 <= j < |rest| && rest[j] == g;
    assert HalvedAgain(visit, 0, j + 1);
    AgeingExactIff(s, visit);
  }

  /** Whatever order Go chooses, a pass halves every frequency exactly once: so it is exactly when, before
      the pass, no bucket above the lowest frequency is the one that another bucket is halved into. */
  lemma AgeingExactUnderEveryOrderIff(s: LfuState)
    requires Bucketed(s)
    ensures (forall visit :: Lists(visit, s.buckets.Keys) ==> Exact(s, visit)) <==> (forall f, g :: !Chained(s, f, g))
  {
    if f, g :| Chained(s, f, g) {
      var visit := ChainedMayBeHalvedAgain(s, f, g);
    } else {
      forall visit | Lists(visit, s.buckets.Keys)
        ensures Exact(s, visit)
      {
        UnchainedNeverHalvedAgain(s, visit);
      }
    }
  }

  ghost predicate Ascending(visit: seq<nat>) {
    forall i, j :: 0 <= i < j < |visit| ==> visit[i] < visit[j]
  }

  /** Visited in ascending order, every frequency is halved exactly once and no two keys swap rank. */
  lemma AscendingAgeingIsExact(s: LfuState, visit: seq<nat>)
    requires Bucketed(s) && Lists(visit, s.buckets.Keys) && Ascending(visit)
    ensures Aged(s, visit).freq == map k | k in s.freq :: Halved(s.freq[k])
    ensures forall a, b :: a in s.freq && b in s.freq && s.freq[a] <= s.freq[b] ==>
              Aged(s, visit).freq[a] <= Aged(s, visit).freq[b]
  {
    hide Bucketed, Aged, Landing;
    AgeingMovesWholeBuckets(s, visit);
    AgeingExactIff(s, visit);
  }

  /** Three keys of frequencies 5, 4 and 2, each alone in its bucket. */
  function ThreeBuckets(a: Key, b: Key, c: Key): LfuState {
    LfuState(map[2 := [c], 4 := [b], 5 := [a]], map[a := 5, b := 4, c := 2], 0, 1)
  }

  lemma ThreeBucketsHold(a: Key, b: Key, c: Key)
    requires a != b && b != c && a != c
    ensures Bucketed(ThreeBuckets(a, b, c))
    ensures Lists([5, 2, 4], ThreeBuckets(a, b, c).buckets.Keys)
  {
    var s := ThreeBuckets(a, b, c);
    assert s.buckets[5] == [a] && s.buckets[4] == [b] && s.buckets[2] == [c];
    assert s.buckets.Keys == {2, 4, 5} && s.freq.Keys == {a, b, c};
    assert Elems([5, 2, 4]) == {2, 4, 5};
  }

  /** Out of order, the pass ranks a key of frequency 5 below one of frequency 4. */
  lemma AgeingCanInvertRanks(a: Key, b: Key, c: Key)
    requires a != b && b != c && a != c
    ensures var s, visit := ThreeBuckets(a, b, c), [5, 2, 4];
            && Lists(visit, s.buckets.Keys)
            && s.freq[b] < s.freq[a]
            && a in Aged(s, visit).freq && b in Aged(s, visit).freq
            && Aged(s, visit).freq[a] < Aged(s, visit).freq[b]
  {
    ThreeBucketsHold(a, b, c);
    AgeingMovesWholeBuckets(ThreeBuckets(a, b, c), [5, 2, 4]);
    LandingsOutOfOrder();
  }

  lemma LandingsOutOfOrder()
    ensures Landing(5, [5, 2, 4]) == 1 && Landing(4, [5, 2, 4]) == 2
  {
    assert [5, 2, 4][1..] == [2, 4] && [2, 4][1..] == [4] && [4][1..] == [];
    assert Landing(2, [2, 4]) == Landing(1, [4]) == Landing(1, []);
    assert Landing(4, [2, 4]) == Landing(4, [4]) == Landing(2, []);
  }

  /** Once its bucket is moved, the newest key of the lowest bucket is the victim, not the oldest. */
  lemma AgeingReversesTies(s: LfuState)
    requires Bucketed(s) && s.buckets != map[] && Lowest(s.buckets) > 1
    ensures var f := Lowest(s.buckets); var b, t := s.buckets[f], AgedBucket(s, f);
            && VictimOf(s) == Some(b[|b| - 1])
            && Bucketed(t) && t.buckets[Halved(f)] == Reverse(b)
            && VictimOf(t) == Some(b[0])
  {
    var f := Lowest(s.buckets);
    AgeBucketKeepsBuckets(s, f);
    MovedToBottom(s);
    assert s.buckets[f] != [];
    hide Bucketed, AgedBucket, Lowest;
  }

  lemma MovedToBottom(s: LfuState)
    requires s.buckets != map[] && Lowest(s.buckets) > 1
    ensures var f := Lowest(s.buckets); var t := AgedBucket(s, f);
            && t.buckets != map[] && Lowest(t.buckets) == Halved(f)
            && t.buckets[Halved(f)] == Reverse(s.buckets[f])
  {
    var f := Lowest(s.buckets);
    var t := AgedBucket(s, f);
    assert Halved(f) < f && Halved(f) !in s.buckets.Keys;
    assert Reverse(s.buckets[f]) + [] == Reverse(s.buckets[f]);
    assert Halved(f) in t.buckets.Keys;
    assert forall g :: g in t.buckets.Keys ==> g == Halved(f) || g in s.buckets.Keys;
    assert IsLeast(Halved(f), t.buckets.Keys);
  }

  // ---------- Victims ----------

  /** The victim has a globally minimal frequency, and none exists only when no key is tracked. */
  lemma VictimIsLeastFrequent(s: LfuState)
    requires Bucketed(s)
    ensures VictimOf(s).None? <==> s.freq == map[]
    ensures forall v :: VictimOf(s) == Some(v) ==>
              v in s.freq && forall k :: k in s.freq ==> s.freq[v] <= s.freq[k]
  {
    assert forall k :: k in s.freq ==> s.freq[k] in s.buckets;
    if s.buckets != map[] {
      var f := Lowest(s.buckets);
      var b := s.buckets[f];
      assert b[|b| - 1] in s.freq && s.freq[b[|b| - 1]] == f;
      forall k | k in s.freq
        ensures f <= s.freq[k]
      {
        assert s.freq[k] in s.buckets.Keys;
      }
    }
  }

  /** As long as a key is tracked there is a lowest bucket, and it is not empty. */
  lemma LowestBucketServes(s: LfuState)
    requires Bucketed(s)
    ensures s.freq != map[] <==> s.buckets != map[]
    ensures 0 !in s.buckets && (s.buckets != map[] ==> s.buckets[Lowest(s.buckets)] != [])
  {
    VictimIsLeastFrequent(s);
  }

  /** While the lowest bucket lasts, evicting keeps taking its tail. */
  lemma EvictLowestTail(s: LfuState)
    requires Bucketed(s) && s.buckets != map[]
    ensures var f := Lowest(s.buckets); var b := s.buckets[f]; var t := Removed(s, b[|b| - 1]);
            && VictimOf(s) == Some(b[|b| - 1])
            && Bucketed(t)
            && t.buckets == (if |b| == 1 then s.buckets - {f} else s.buckets[f := b[..|b| - 1]])
            && (|b| > 1 ==> t.buckets != map[] && Lowest(t.buckets) == f)
  {
    var f := Lowest(s.buckets);
    var b := s.buckets[f];
    var v := b[|b| - 1];
    assert v in s.freq && s.freq[v] == f;
    WithoutLast(b);
    RemoveKeepsBuckets(s, v);
    if |b| > 1 {
      var t := Removed(s, v);
      assert f in t.buckets && t.buckets.Keys == s.buckets.Keys;
    }
  }

  lemma TakeCons(v: Key, a: seq<Key>, n: nat)
    requires 0 < n <= |a| + 1
    ensures ([v] + a)[..n] == [v] + a[..n - 1]
  {
  }

  lemma FirstRound(s: LfuState, v: Key, n: nat)
    requires Bucketed(s) && VictimOf(s) == Some(v) && n > 0
    ensures Bucketed(Removed(s, v)) && Removed(s, v).freq == s.freq - {v} && v in s.freq
    ensures VictimRounds(s, n) == [v] + VictimRounds(Removed(s, v), n - 1)
  {
    VictimIsLeastFrequent(s);
    RemoveKeepsBuckets(s, v);
  }

  lemma NoRounds(s: LfuState, n: nat)
    requires Bucketed(s) && (n == 0 || VictimOf(s).None?)
    ensures VictimRounds(s, n) == []
  {
  }

  lemma ReverseLast(b: seq<Key>)
    requires b != []
    ensures Reverse(b) == [b[|b| - 1]] + Reverse(b[..|b| - 1])
  {
  }

  lemma {:induction false} RoundsEmptyLowestBucket(s: LfuState, b: seq<Key>, n: nat)
    requires Bucketed(s) && s.buckets != map[] && b == s.buckets[Lowest(s.buckets)] && n <= |b|
    ensures VictimRounds(s, n) == Reverse(b)[..n]
    decreases n
  {
    hide *;
    if n == 0 {
      NoRounds(s, n);
    } else {
      EvictLowestTail(s);
      var v, front := b[|b| - 1], b[..|b| - 1];
      FirstRound(s, v, n);
      if |b| > 1 {
        RoundsEmptyLowestBucket(Removed(s, v), front, n - 1);
      } else {
        NoRounds(Removed(s, v), 0);
      }
      ReverseLast(b);
      TakeCons(v, Reverse(front), n);
    }
  }

  lemma {:induction false} RoundsNeverRepeat(s: LfuState, n: nat)
    requires Bucketed(s)
    ensures NoDup(VictimRounds(s, n))
    ensures forall v :: v in VictimRounds(s, n) ==> v in s.freq
    decreases n
  {
    hide *;
    if n == 0 || VictimOf(s).None? {
      NoRounds(s, n);
      NoDupEmpty();
    } else {
      var v := VictimOf(s).value;
      FirstRound(s, v, n);
      RoundsNeverRepeat(Removed(s, v), n - 1);
      NoDupCons(v, VictimRounds(Removed(s, v), n - 1));
    }
  }

  lemma NoDupEmpty()
    ensures NoDup<Key>([])
  {
  }

  lemma NoDupCons(v: Key, rest: seq<Key>)
    requires NoDup(rest) && v !in rest
    ensures NoDup([v] + rest)
  {
  }

  /** The batch equals `n` single evictions exactly as long as it stays within the lowest bucket;
      beyond that Candidates repeats keys. */
  lemma CandidatesAreVictimRoundsIff(s: LfuState, n: int)
    requires Bucketed(s)
    ensures var enough := s.buckets == map[] || n <= |s.buckets[Lowest(s.buckets)]|;
            && (CandidatesOf(s, n) == VictimRounds(s, Max(n, 0)) <==> enough)
            && (NoDup(CandidatesOf(s, n)) <==> enough)
  {
    if s.buckets == map[] || n <= 0 {
      NoRounds(s, Max(n, 0));
    } else {
      var b := s.buckets[Lowest(s.buckets)];
      var c := CandidatesOf(s, n);
      RoundsNeverRepeat(s, n);
      if n <= |b| {
        RoundsEmptyLowestBucket(s, b, n);
      } else {
        assert c == Reverse(b) + Laps(b, n - |b|);
        assert c[|b|] == Laps(b, n - |b|)[0] == Reverse(b)[0] == c[0];
      }
    }
  }

  // ---------- What every hook call keeps ----------

  lemma AccessKeepsInv(s: LfuState, key: Key, visit: seq<nat>)
    requires Inv(s) && VisitOf(s, key, visit)
    ensures Inv(Accessed(s, key, visit))
    ensures Accessed(s, key, visit).freq.Keys == s.freq.Keys
    ensures Accessed(s, key, visit).ageMax == s.ageMax
  {
    hide Bucketed, Aged, Pushed, Dropped;
    if key in s.freq {
      var t := Incremented(s, key);
      IncrementKeepsBuckets(s, key);
      AgeingMovesWholeBuckets(t, visit);
      BucketsIgnoreCounter(t, s.ageCnt + 1);
      BucketsIgnoreCounter(Aged(t, visit), 0);
    }
  }

  lemma BucketsIgnoreCounter(s: LfuState, c: nat)
    requires Bucketed(s)
    ensures Bucketed(s.(ageCnt := c))
  {
  }

  lemma InsertKeepsInv(s: LfuState, key: Key)
    requires Inv(s)
    ensures Inv(Inserted(s, key)) && Inserted(s, key).freq.Keys == s.freq.Keys + {key}
  {
    if key in s.freq {
      IncrementKeepsBuckets(s, key);
    } else {
      PushKeepsBuckets(s, key, 1);
    }
  }

  lemma RemoveKeepsInv(s: LfuState, key: Key)
    requires Inv(s)
    ensures Inv(Removed(s, key)) && Removed(s, key).freq.Keys == s.freq.Keys - {key}
  {
    RemoveKeepsBuckets(s, key);
  }

  /** A hit counts one access of its key, and of no other. The hit that completes a period of `ageMax` of them
      is followed by an ageing pass, and the count starts again. */
  lemma HitCountsOnce(s: LfuState, key: Key, visit: seq<nat>)
    requires Inv(s) && key in s.freq
    ensures var t, freq := Accessed(s, key, visit), s.freq[key := Min(s.freq[key] + 1, 0x1_0000)];
            && t.ageMax == s.ageMax
            && (s.ageMax == 0 ==> t.freq == freq && t.ageCnt == 0)
            && (s.ageMax > 0 && s.ageCnt + 1 < s.ageMax ==> t.freq == freq && t.ageCnt == s.ageCnt + 1)
            && (s.ageMax > 0 && s.ageCnt + 1 == s.ageMax ==>
                  t.freq == (map k | k in freq :: Landing(freq[k], visit)) && t.ageCnt == 0)
  {
    IncrementKeepsBuckets(s, key);
    AgeingMovesWholeBuckets(Incremented(s, key), visit);
    hide Bucketed, Incremented, Aged;
  }

  /** An insertion counts a tracked key like a hit, but not towards the period; a new key starts at 1. A removal
      forgets the frequency of its key. Neither touches any other frequency. */
  lemma InsertAndRemoveCount(s: LfuState, key: Key)
    requires Inv(s)
    ensures Inserted(s, key).freq == s.freq[key := if key in s.freq then Min(s.freq[key] + 1, 0x1_0000) else 1]
    ensures Removed(s, key).freq == s.freq - {key}
    ensures Inserted(s, key).ageCnt == Removed(s, key).ageCnt == s.ageCnt
    ensures Inserted(s, key).ageMax == Removed(s, key).ageMax == s.ageMax
  {
    if key in s.freq {
      IncrementKeepsBuckets(s, key);
    } else {
      assert s.freq - {key} == s.freq;
    }
    hide Bucketed;
  }

  // ---------- Rebuild ----------

  function InitialFreqs(entries: seq<(Key, nat)>): map<Key, nat> {
    if entries == [] then map[]
    else
      var n := |entries| - 1;
      InitialFreqs(entries[..n])[entries[n].0 := InitialFreq(entries[n].1)]
  }

  lemma {:induction false} InitialFreqsLookup(entries: seq<(Key, nat)>)
    requires NoDup(KeysIn(entries))
    ensures InitialFreqs(entries).Keys == Elems(KeysIn(entries))
    ensures forall i :: 0 <= i < |entries| ==>
              && entries[i].0 in InitialFreqs(entries)
              && InitialFreqs(entries)[entries[i].0] == Max(1, Min(entries[i].1, 0x1_0000))
  {
    if entries != [] {
      var n := |entries| - 1;
      var front := entries[..n];
      assert KeysIn(entries) == KeysIn(front) + [entries[n].0];
      assert forall i :: 0 <= i < n ==> KeysIn(front)[i] == KeysIn(entries)[i];
      InitialFreqsLookup(front);
      forall i | 0 <= i < n
        ensures entries[i] == front[i] && entries[i].0 != entries[n].0
      {
        assert KeysIn(entries)[i] != KeysIn(entries)[n];
      }
    }
  }

  /** Rebuild keeps every key in the bucket of its clamped access count. */
  lemma {:induction false} RebuildAdopts(s: LfuState, entries: seq<(Key, nat)>)
    requires NoDup(KeysIn(entries))
    ensures Inv(Rebuilt(s, entries))
    ensures Rebuilt(s, entries).freq == InitialFreqs(entries)
    ensures Rebuilt(s, entries).ageMax == s.ageMax && Rebuilt(s, entries).ageCnt == 0
    decreases |entries|
  {
    if entries != [] {
      var n := |entries| - 1;
      var front := entries[..n];
      assert KeysIn(entries) == KeysIn(front) + [entries[n].0];
      assert NoDup(KeysIn(front)) && entries[n].0 !in InitialFreqs(front) by {
        assert forall i :: 0 <= i < n ==> KeysIn(front)[i] == KeysIn(entries)[i] != KeysIn(entries)[n];
        InitialFreqsLookup(front);
      }
      RebuildAdopts(s, front);
      PushKeepsBuckets(Rebuilt(s, front), entries[n].0, InitialFreq(entries[n].1));
    }
  }
}
