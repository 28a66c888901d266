/** cache/policy/lfu.go on values: what each hook does to the frequency buckets. A bucket lists its
    keys front first; `freq` is the frequency recorded for every tracked key. */
module LfuStates {
  import opened Base

  const MAX_FREQ := 0x1_0000

  datatype LfuState = LfuState(buckets: map<nat, seq<Key>>, freq: map<Key, nat>, ageCnt: nat, ageMax: nat)

  /** Every key sits in exactly one bucket, the non-empty one of its recorded frequency. */
  ghost predicate Bucketed(s: LfuState) {
    && (forall f :: f in s.buckets ==> 1 <= f <= MAX_FREQ && s.buckets[f] != [] && NoDup(s.buckets[f]))
    && (forall f, i :: f in s.buckets && 0 <= i < |s.buckets[f]| ==>
          s.buckets[f][i] in s.freq && s.freq[s.buckets[f][i]] == f)
    && (forall k :: k in s.freq ==> s.freq[k] in s.buckets && k in s.buckets[s.freq[k]])
  }

  ghost predicate Inv(s: LfuState) {
    Bucketed(s) && if s.ageMax == 0 then s.ageCnt == 0 else s.ageCnt < s.ageMax
  }

  function NewState(ageMax: nat): LfuState {
    LfuState(map[], map[], 0, ageMax)
  }

  function BucketAt(buckets: map<nat, seq<Key>>, f: nat): seq<Key> {
    if f in buckets then buckets[f] else []
  }

  function Pushed(buckets: map<nat, seq<Key>>, f: nat, key: Key): map<nat, seq<Key>> {
    buckets[f := [key] + BucketAt(buckets, f)]
  }

  function Dropped(buckets: map<nat, seq<Key>>, f: nat, key: Key): map<nat, seq<Key>> {
    var rest := Without(BucketAt(buckets, f), key);
    if rest == [] then buckets - {f} else buckets[f := rest]
  }

  function Incremented(s: LfuState, key: Key): LfuState
    requires key in s.freq
  {
    var oldFreq := s.freq[key];
    var newFreq := Min(oldFreq + 1, MAX_FREQ);
    if newFreq == oldFreq then s
    else s.(buckets := Pushed(Dropped(s.buckets, oldFreq, key), newFreq, key), freq := s.freq[key := newFreq])
  }

  function Inserted(s: LfuState, key: Key): LfuState {
    if key in s.freq then Incremented(s, key)
    else s.(buckets := Pushed(s.buckets, 1, key), freq := s.freq[key := 1])
  }

  function Removed(s: LfuState, key: Key): LfuState {
    if key !in s.freq then s
    else s.(buckets := Dropped(s.buckets, s.freq[key], key), freq := s.freq - {key})
  }

  // ---------- Ageing ----------

  function Halved(f: nat): nat {
    Max(1, f / 2)
  }

  /** One bucket of the ageing pass: its elements are popped from the front and pushed, one by one,
      onto the front of the bucket of half the frequency. */
  function AgedBucket(s: LfuState, f: nat): LfuState {
    if Halved(f) == f || f !in s.buckets then s
    else
      s.(buckets := (s.buckets - {f})[Halved(f) := Reverse(s.buckets[f]) + BucketAt(s.buckets, Halved(f))],
         freq := map k | k in s.freq :: if s.freq[k] == f then Halved(f) else s.freq[k])
  }

  /** The whole pass, over the bucket frequencies in the order `visit`. */
  function Aged(s: LfuState, visit: seq<nat>): LfuState
    decreases |visit|
  {
    if visit == [] then s else Aged(AgedBucket(s, visit[0]), visit[1..])
  }

  /** Whether this access completes an ageing period. */
  predicate AgesOn(s: LfuState, key: Key) {
    key in s.freq && s.ageMax > 0 && s.ageCnt + 1 >= s.ageMax
  }

  function Accessed(s: LfuState, key: Key, visit: seq<nat>): LfuState {
    if key !in s.freq then s
    else
      var s1 := Incremented(s, key);
      if s.ageMax == 0 then s1
      else if AgesOn(s, key) then Aged(s1, visit).(ageCnt := 0)
      else s1.(ageCnt := s.ageCnt + 1)
  }

  /** `visit` is an order in which the ageing pass of this access, if there is one, may see the buckets. */
  ghost predicate VisitOf(s: LfuState, key: Key, visit: seq<nat>) {
    AgesOn(s, key) ==> Lists(visit, Incremented(s, key).buckets.Keys)
  }

  // ---------- Rebuild and victims ----------

  function InitialFreq(accessCount: nat): nat {
    Min(Max(1, accessCount), MAX_FREQ)
  }

  function Rebuilt(s: LfuState, entries: seq<(Key, nat)>): LfuState
    decreases |entries|
  {
    if entries == [] then NewState(s.ageMax)
    else
      var n := |entries| - 1;
      var s1, f := Rebuilt(s, entries[..n]), InitialFreq(entries[n].1);
      s1.(buckets := Pushed(s1.buckets, f, entries[n].0), freq := s1.freq[entries[n].0 := f])
  }

  ghost predicate IsLeast(f: nat, fs: set<nat>) {
    f in fs && forall g :: g in fs ==> f <= g
  }

  lemma {:induction false} LeastExists(fs: set<nat>)
    requires fs != {}
    ensures exists f :: IsLeast(f, fs)
  {
    var f :| f in fs;
    if fs != {f} {
      var rest := fs - {f};
      LeastExists(rest);
      var g :| IsLeast(g, rest);
      assert fs == rest + {f};
      assert IsLeast(if f < g then f else g, fs);
    } else {
      assert IsLeast(f, fs);
    }
  }

  ghost function Lowest(buckets: map<nat, seq<Key>>): nat
    requires buckets != map[]
    ensures IsLeast(Lowest(buckets), buckets.Keys)
  {
    assert buckets.Keys != {} by {
      var f :| f in buckets;
    }
    LeastExists(buckets.Keys);
    var f :| IsLeast(f, buckets.Keys);
    f
  }

  ghost function VictimOf(s: LfuState): Option<Key>
    requires Bucketed(s)
  {
    if s.buckets == map[] then None
    else var b := s.buckets[Lowest(s.buckets)]; Some(b[|b| - 1])
  }

  /** `n` keys of the list `b`, from its tail, starting again at the tail when it is used up. */
  function Laps(b: seq<Key>, n: nat): seq<Key>
    requires b != []
    ensures |Laps(b, n)| == n
    decreases n
  {
    if n <= |b| then Reverse(b)[..n] else Reverse(b) + Laps(b, n - |b|)
  }

  /** What Candidates returns: the lowest bucket from its tail, over and over until `n` keys are out. */
  ghost function CandidatesOf(s: LfuState, n: int): seq<Key>
    requires Bucketed(s)
  {
    if n <= 0 || s.buckets == map[] then [] else Laps(s.buckets[Lowest(s.buckets)], n)
  }

  ghost function VictimRounds(s: LfuState, n: nat): seq<Key>
    requires Bucketed(s)
    decreases n
  {
    match VictimOf(s)
    case Some(key) =>
      RemoveKeepsBuckets(s, key);
      if n == 0 then [] else [key] + VictimRounds(Removed(s, key), n - 1)
    case None => []
  }

  // ---------- What every hook keeps ----------

  lemma DropKeepsBuckets(s: LfuState, key: Key)
    requires Bucketed(s) && key in s.freq
    ensures Bucketed(s.(buckets := Dropped(s.buckets, s.freq[key], key), freq := s.freq - {key}))
  {
    var f, b := s.freq[key], Dropped(s.buckets, s.freq[key], key);
    WithoutProps(s.buckets[f], key);
    forall g, i | g in b && 0 <= i < |b[g]|
      ensures b[g][i] != key && b[g][i] in s.freq && s.freq[b[g][i]] == g
    {
      if g == f {
        assert b[f][i] in Without(s.buckets[f], key);
      }
    }
  }

  lemma PushKeepsBuckets(s: LfuState, key: Key, f: nat)
    requires Bucketed(s) && key !in s.freq && 1 <= f <= MAX_FREQ
    ensures Bucketed(s.(buckets := Pushed(s.buckets, f, key), freq := s.freq[key := f]))
  {
    var t := s.(buckets := Pushed(s.buckets, f, key), freq := s.freq[key := f]);
    assert forall i :: 0 < i < |t.buckets[f]| ==> t.buckets[f][i] == BucketAt(s.buckets, f)[i - 1];
    forall k | k in t.freq
      ensures t.freq[k] in t.buckets && k in t.buckets[t.freq[k]]
    {
      if k == key {
        assert t.buckets[f][0] == key;
      } else if s.freq[k] == f {
        var i :| 0 <= i < |s.buckets[f]| && s.buckets[f][i] == k;
        assert t.buckets[f][i + 1] == k;
      }
    }
  }

  lemma RemoveKeepsBuckets(s: LfuState, key: Key)
    requires Bucketed(s)
    ensures Bucketed(Removed(s, key))
  {
    if key in s.freq {
      DropKeepsBuckets(s, key);
    }
  }

  lemma IncrementKeepsBuckets(s: LfuState, key: Key)
    requires Bucketed(s) && key in s.freq
    ensures Bucketed(Incremented(s, key))
    ensures Incremented(s, key).freq == s.freq[key := Min(s.freq[key] + 1, MAX_FREQ)]
  {
    assert 1 <= s.freq[key] <= MAX_FREQ;
    hide Bucketed, Pushed, Dropped;
    var newFreq := Min(s.freq[key] + 1, MAX_FREQ);
    if newFreq != s.freq[key] {
      DropKeepsBuckets(s, key);
      var t := s.(buckets := Dropped(s.buckets, s.freq[key], key), freq := s.freq - {key});
      PushKeepsBuckets(t, key, newFreq);
      assert t.freq[key := newFreq] == s.freq[key := newFreq];
    } else {
      assert s.freq[key := newFreq] == s.freq;
    }
  }

  /** A reversed bucket in front of another lists the keys of both, each once. */
  lemma MergedBucket(s: LfuState, f: nat, h: nat)
    requires Bucketed(s) && f in s.buckets && f != h
    ensures NoDup(Reverse(s.buckets[f]) + BucketAt(s.buckets, h))
    ensures forall k :: k in Reverse(s.buckets[f]) + BucketAt(s.buckets, h) <==>
                        k in s.freq && (s.freq[k] == f || s.freq[k] == h)
  {
    var a, b := Reverse(s.buckets[f]), BucketAt(s.buckets, h);
    forall k | k in s.freq && (s.freq[k] == f || s.freq[k] == h)
      ensures k in a + b
    {
      if s.freq[k] == f {
        var i :| 0 <= i < |s.buckets[f]| && s.buckets[f][i] == k;
        assert a[|a| - 1 - i] == k;
      }
    }
    forall i, j | 0 <= i < j < |a + b|
      ensures (a + b)[i] != (a + b)[j]
    {
      if i < |a| <= j {
        assert a[i] in s.buckets[f] && b[j - |a|] == s.buckets[h][j - |a|];
      }
    }
  }

  lemma AgeBucketKeepsBuckets(s: LfuState, f: nat)
    requires Bucketed(s)
    ensures Bucketed(AgedBucket(s, f))
    ensures AgedBucket(s, f).freq ==
              map k | k in s.freq :: if s.freq[k] == f then Halved(f) else s.freq[k]
  {
    if Halved(f) != f && f in s.buckets {
      var h, t := Halved(f), AgedBucket(s, f);
      MergedBucket(s, f, h);
      hide Reverse, BucketAt, NoDup;
      forall k | k in t.freq
        ensures t.freq[k] in t.buckets && k in t.buckets[t.freq[k]]
      {
        assert k in s.freq && s.freq[k] in s.buckets && k in s.buckets[s.freq[k]];
      }
      forall g, i | g in t.buckets && 0 <= i < |t.buckets[g]|
        ensures t.buckets[g][i] in t.freq && t.freq[t.buckets[g][i]] == g
      {
        assert t.buckets[g][i] in t.buckets[g];
      }
    }
  }
}
