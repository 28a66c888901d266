/** When an LFU ageing pass keeps ranks, whatever the map order: a key of higher frequency does not end below
    one of lower frequency. */
module LfuRanks {
  import opened Base
  import opened LfuStates
  import opened LfuLaws

  /** Ranks after a pass agree with those before it. */
  ghost predicate RanksKept(s: LfuState, visit: seq<nat>) {
    forall a, b :: a in s.freq && b in s.freq && s.freq[a] <= s.freq[b] ==>
      a in Aged(s, visit).freq && b in Aged(s, visit).freq && Aged(s, visit).freq[a] <= Aged(s, visit).freq[b]
  }

  /** `h` comes to `f` by repeated halving. */
  predicate Reaches(h: nat, f: nat) {
    h == f || (h > f && Reaches(h / 2, f))
  }

  /** The lowest that a pass can take frequency `h`: it is halved, and again as long as it lands on a bucket. */
  function Deepest(buckets: set<nat>, h: nat): nat {
    var g := Halved(h);
    if 1 < g < h && g in buckets then Deepest(buckets, g) else g
  }

  /** The buckets that `h` goes through on its way down. */
  function Descent(buckets: set<nat>, h: nat): seq<nat> {
    var g := Halved(h);
    [h] + if 1 < g < h && g in buckets then Descent(buckets, g) else []
  }

  /** Some order takes the higher frequency `h` below the lower frequency `f`. */
  ghost predicate MayPass(s: LfuState, f: nat, h: nat) {
    f in s.buckets && h in s.buckets && f < h && !Reaches(h, f) && Deepest(s.buckets.Keys, h) < Halved(f)
  }

  // ---------- What no order can do ----------

  lemma {:induction false} DeepestIsLower(buckets: set<nat>, h: nat)
    requires h >= 1
    ensures 1 <= Deepest(buckets, h) <= Halved(h) <= h
  {
    var g := Halved(h);
    if 1 < g < h && g in buckets {
      DeepestIsLower(buckets, g);
    }
  }

  lemma {:induction false} LandsNoDeeper(buckets: set<nat>, h: nat, visit: seq<nat>)
    requires h >= 1 && forall i :: 0 <= i < |visit| ==> visit[i] in buckets
    ensures Landing(h, visit) >= Deepest(buckets, h)
    decreases |visit|
  {
    DeepestIsLower(buckets, h);
    if visit != [] {
      var rest, g := visit[1..], Halved(h);
      if visit[0] != h {
        LandsNoDeeper(buckets, h, rest);
      } else if 1 < g < h && g in buckets {
        LandsNoDeeper(buckets, g, rest);
      } else {
        assert g != 1 ==> g !in rest;
        LandingElsewhere(g, rest);
      }
    }
  }

  lemma {:induction false} ReachesHalf(h: nat, f: nat)
    requires Reaches(h, f) && f >= 2
    ensures Reaches(h, f / 2)
  {
    if h != f {
      ReachesHalf(h / 2, f);
    }
  }

  /** Frequencies on one path of halvings never overtake each other. */
  lemma {:induction false} PathKeepsOrder(h: nat, f: nat, visit: seq<nat>)
    requires f >= 1 && Reaches(h, f)
    ensures Landing(f, visit) <= Landing(h, visit)
    decreases |visit|
  {
    if visit != [] && h != f {
      if visit[0] == h {
        PathKeepsOrder(h / 2, f, visit[1..]);
      } else if visit[0] == f {
        if f >= 2 {
          ReachesHalf(h, f);
        }
        PathKeepsOrder(h, Halved(f), visit[1..]);
      } else {
        PathKeepsOrder(h, f, visit[1..]);
      }
    }
  }

  lemma LandingsInOrder(s: LfuState, visit: seq<nat>, f: nat, h: nat)
    requires Bucketed(s) && Lists(visit, s.buckets.Keys) && f in s.buckets && h in s.buckets && f <= h
    requires !MayPass(s, f, h)
    ensures Landing(f, visit) <= Landing(h, visit)
  {
    assert f in Elems(visit) && forall i :: 0 <= i < |visit| ==> visit[i] in Elems(visit);
    if Reaches(h, f) {
      PathKeepsOrder(h, f, visit);
    } else {
      LandsNoDeeper(s.buckets.Keys, h, visit);
      var j := LandingIsAShift(f, visit);
    }
  }

  // ---------- What some order does ----------

  lemma {:induction false} DescentGoesDown(buckets: set<nat>, h: nat)
    requires h in buckets && h >= 1
    ensures NoDup(Descent(buckets, h)) && Elems(Descent(buckets, h)) <= buckets
    ensures forall x :: x in Descent(buckets, h) ==> x <= h && Reaches(h, x)
  {
    var g := Halved(h);
    if 1 < g < h && g in buckets {
      var rest := Descent(buckets, g);
      DescentGoesDown(buckets, g);
      assert Descent(buckets, h) == [h] + rest && h !in rest;
    }
  }

  lemma {:induction false} DescentLandsDeepest(buckets: set<nat>, h: nat, more: seq<nat>)
    requires h >= 1
    ensures Landing(h, Descent(buckets, h) + more) == Landing(Deepest(buckets, h), more)
  {
    var g := Halved(h);
    var rest := if 1 < g < h && g in buckets then Descent(buckets, g) else [];
    assert (Descent(buckets, h) + more)[0] == h && (Descent(buckets, h) + more)[1..] == rest + more;
    if 1 < g < h && g in buckets {
      DescentLandsDeepest(buckets, g, more);
    } else {
      assert rest + more == more;
    }
  }

  lemma {:induction false} DeepestIsNoBucket(buckets: set<nat>, h: nat)
    requires h >= 1
    ensures Deepest(buckets, h) == 1 || Deepest(buckets, h) !in buckets
  {
    var g := Halved(h);
    if 1 < g < h && g in buckets {
      DeepestIsNoBucket(buckets, g);
    }
  }

  lemma {:induction false} LandingLast(f: nat, before: seq<nat>)
    requires f !in before
    ensures Landing(f, before + [f]) == Halved(f)
    decreases |before|
  {
    if before == [] {
      assert ([] + [f])[1..] == [];
    } else {
      assert (before + [f])[1..] == before[1..] + [f];
      LandingLast(f, before[1..]);
    }
  }

  /** Down from `h` first, and `f` last. */
  lemma PassingOrder(s: LfuState, f: nat, h: nat) returns (visit: seq<nat>)
    requires Bucketed(s) && MayPass(s, f, h)
    ensures Lists(visit, s.buckets.Keys)
    ensures Landing(h, visit) < Landing(f, visit)
  {
    var buckets := s.buckets.Keys;
    var down := Descent(buckets, h);
    DescentGoesDown(buckets, h);
    assert f !in down && h >= 1;
    var deepest := Deepest(buckets, h);
    assert deepest < Halved(f);
    hide *;
    var others := OrderExists(buckets - Elems(down) - {f});
    visit := down + (others + [f]);
    OrderOfThree(down, others, f, buckets);
    DescentLandsDeepest(buckets, h, others + [f]);
    DeepestIsNoBucket(buckets, h);
    LandingElsewhere(deepest, others + [f]);
    assert visit == (down + others) + [f];
    LandingLast(f, down + others);
  }

  lemma OrderOfThree(down: seq<nat>, others: seq<nat>, f: nat, buckets: set<nat>)
    requires NoDup(down) && Elems(down) <= buckets && f in buckets && f !in down
    requires Lists(others, buckets - Elems(down) - {f})
    ensures Lists(down + (others + [f]), buckets)
    ensures f !in down + others
    ensures forall x :: x in others + [f] ==> x in buckets
  {
    assert forall x :: x in others ==> x in Elems(others);
    assert forall x :: x in down ==> x in Elems(down);
    NoDupConcat(others, [f]);
    NoDupConcat(down, others + [f]);
    forall x | x in buckets
      ensures x in down + (others + [f])
    {
      assert x in Elems(down) || x == f || x in Elems(others);
    }
    assert Elems(down + (others + [f])) == buckets;
  }

  /** A bucket has a key. */
  lemma SomeKey(s: LfuState, f: nat) returns (key: Key)
    requires Bucketed(s) && f in s.buckets
    ensures key in s.freq && s.freq[key] == f
  {
    key := s.buckets[f][0];
  }

  lemma PassingBreaksRanks(s: LfuState, f: nat, h: nat) returns (visit: seq<nat>)
    requires Bucketed(s) && MayPass(s, f, h)
    ensures Lists(visit, s.buckets.Keys) && !RanksKept(s, visit)
  {
    visit := PassingOrder(s, f, h);
    AgeingMovesWholeBuckets(s, visit);
    var a := SomeKey(s, f);
    var b := SomeKey(s, h);
    assert s.freq[a] <= s.freq[b] && Aged(s, visit).freq[a] > Aged(s, visit).freq[b];
  }

  /** Every map order keeps the ranks if and only if, before the pass, no bucket can fall below a lower one: a
      bucket that does not come to the lower one by halving, and that lands, at its deepest, below half of it. */
  lemma RanksKeptUnderEveryOrderIff(s: LfuState)
    requires Bucketed(s)
    ensures (forall visit :: Lists(visit, s.buckets.Keys) ==> RanksKept(s, visit)) <==> (forall f, h :: !MayPass(s, f, h))
  {
    if f, h :| MayPass(s, f, h) {
      var visit := PassingBreaksRanks(s, f, h);
    } else {
      forall visit | Lists(visit, s.buckets.Keys)
        ensures RanksKept(s, visit)
      {
        AgeingMovesWholeBuckets(s, visit);
        forall a, b | a in s.freq && b in s.freq && s.freq[a] <= s.freq[b]
          ensures Landing(s.freq[a], visit) <= Landing(s.freq[b], visit)
        {
          assert s.freq[a] in s.buckets && s.freq[b] in s.buckets;
          LandingsInOrder(s, visit, s.freq[a], s.freq[b]);
        }
      }
    }
  }
}
