/** How an LFU breaks ties. The program does not keep the time at which a key was last pushed onto a bucket;
    here it is recorded beside the state, to say what the order inside a bucket means. Every PushFront
    counts as a push: of a new key, of an incremented one, and of each key that an ageing pass moves. */
module LfuTies {
  import opened Base
  import opened LfuStates
  import opened LfuLaws
  import opened LfuRuns

  /** The times of the last pushes, and the time of the next one. */
  datatype History = History(times: map<Key, nat>, now: nat)

  /** Whether a hook call pushes its key, before any ageing. */
  predicate Pushes(s: LfuState, op: HookOp) {
    match op
    case Hit(key, _) => key in s.freq && s.freq[key] < MAX_FREQ
    case Insertion(key) => key in s.freq ==> s.freq[key] < MAX_FREQ
    case Removal(_) => false
  }

  /** The elements of a list pushed one after the other, front first. */
  function PushedAt(times: map<Key, nat>, source: seq<Key>, now: nat): map<Key, nat> {
    if source == [] then times
    else
      var n := |source| - 1;
      PushedAt(times, source[..n], now)[source[n] := now + n]
  }

  function BucketAged(h: History, s: LfuState, f: nat): History {
    if Halved(f) == f || f !in s.buckets then h
    else History(PushedAt(h.times, s.buckets[f], h.now), h.now + |s.buckets[f]|)
  }

  function PassRecorded(h: History, s: LfuState, visit: seq<nat>): History
    decreases |visit|
  {
    if visit == [] then h
    else PassRecorded(BucketAged(h, s, visit[0]), AgedBucket(s, visit[0]), visit[1..])
  }

  function Recorded(h: History, s: LfuState, op: HookOp): History {
    var pushed := if Pushes(s, op) then History(h.times[op.key := h.now], h.now + 1) else h;
    if op.Hit? && AgesOn(s, op.key) then PassRecorded(pushed, Incremented(s, op.key), op.visit) else pushed
  }

  function AllRecorded(h: History, s: LfuState, ops: seq<HookOp>): History
    decreases |ops|
  {
    if ops == [] then h else AllRecorded(Recorded(h, s, ops[0]), Applied(s, ops[0]), ops[1..])
  }

  /** A list from its latest push to its earliest. */
  ghost predicate NewestFirst(b: seq<Key>, times: map<Key, nat>) {
    && (forall i :: 0 <= i < |b| ==> b[i] in times)
    && (forall i, j :: 0 <= i < j < |b| ==> times[b[i]] > times[b[j]])
  }

  ghost predicate Ordered(s: LfuState, h: History) {
    && (forall f :: f in s.buckets ==> NewestFirst(s.buckets[f], h.times))
    && (forall k :: k in s.freq ==> k in h.times && h.times[k] < h.now)
  }

  // ---------- Single pushes and removals ----------

  lemma {:induction false} DroppingKeepsNewestFirst(b: seq<Key>, times: map<Key, nat>, key: Key)
    requires NoDup(b) && NewestFirst(b, times)
    ensures NewestFirst(Without(b, key), times)
  {
    if b != [] {
      var rest := b[1..];
      DroppingKeepsNewestFirst(rest, times, key);
      WithoutProps(rest, key);
      forall j | 0 <= j < |Without(rest, key)|
        ensures times[b[0]] > times[Without(rest, key)[j]]
      {
        assert Without(rest, key)[j] in rest;
        var i :| 0 <= i < |rest| && rest[i] == Without(rest, key)[j];
        assert b[i + 1] == rest[i];
      }
    }
  }

  lemma PushingKeepsNewestFirst(b: seq<Key>, times: map<Key, nat>, key: Key, now: nat)
    requires NewestFirst(b, times) && key !in b
    requires forall k :: k in b ==> times[k] < now
    ensures NewestFirst(b, times[key := now]) && NewestFirst([key] + b, times[key := now])
  {
    assert forall i :: 0 <= i < |b| ==> b[i] in b && b[i] != key;
  }

  lemma DropKeepsOrder(s: LfuState, h: History, key: Key)
    requires Bucketed(s) && Ordered(s, h) && key in s.freq
    ensures Ordered(s.(buckets := Dropped(s.buckets, s.freq[key], key), freq := s.freq - {key}), h)
  {
    DroppingKeepsNewestFirst(s.buckets[s.freq[key]], h.times, key);
  }

  lemma PushKeepsOrder(s: LfuState, h: History, key: Key, f: nat)
    requires Bucketed(s) && Ordered(s, h) && key !in s.freq
    ensures Ordered(s.(buckets := Pushed(s.buckets, f, key), freq := s.freq[key := f]),
                    History(h.times[key := h.now], h.now + 1))
  {
    forall g | g in s.buckets
      ensures NewestFirst(s.buckets[g], h.times[key := h.now])
      ensures NewestFirst([key] + s.buckets[g], h.times[key := h.now])
    {
      BucketListsFrequency(s, g);
      PushingKeepsNewestFirst(s.buckets[g], h.times, key, h.now);
    }
  }

  lemma IncrementKeepsOrder(s: LfuState, h: History, key: Key)
    requires Bucketed(s) && Ordered(s, h) && key in s.freq
    ensures Ordered(Incremented(s, key),
                    if s.freq[key] < MAX_FREQ then History(h.times[key := h.now], h.now + 1) else h)
  {
    if s.freq[key] < MAX_FREQ {
      var t := s.(buckets := Dropped(s.buckets, s.freq[key], key), freq := s.freq - {key});
      DropKeepsBuckets(s, key);
      DropKeepsOrder(s, h, key);
      PushKeepsOrder(t, h, key, s.freq[key] + 1);
      assert t.freq[key := s.freq[key] + 1] == s.freq[key := s.freq[key] + 1];
    }
  }

  // ---------- Ageing passes ----------

  lemma {:induction false} PushedAtTimes(times: map<Key, nat>, source: seq<Key>, now: nat)
    requires NoDup(source)
    ensures PushedAt(times, source, now).Keys == times.Keys + Elems(source)
    ensures forall i :: 0 <= i < |source| ==> PushedAt(times, source, now)[source[i]] == now + i
    ensures forall k :: k in times && k !in source ==> PushedAt(times, source, now)[k] == times[k]
  {
    if source != [] {
      var n := |source| - 1;
      var front := source[..n];
      PushedAtTimes(times, front, now);
      assert source == front + [source[n]];
      assert Elems(source) == Elems(front) + {source[n]};
      assert forall i :: 0 <= i < n ==> front[i] == source[i] && front[i] in Elems(front);
    }
  }

  /** A bucket moved in front of another: the moved keys are the later pushes, the last one moved in front. */
  lemma MovedBucketNewestFirst(source: seq<Key>, b: seq<Key>, times: map<Key, nat>, now: nat)
    requires NoDup(source) && NewestFirst(b, times)
    requires forall i :: 0 <= i < |b| ==> b[i] !in source && times[b[i]] < now
    ensures NewestFirst(Reverse(source) + b, PushedAt(times, source, now))
  {
    PushedAtTimes(times, source, now);
    var a, t := Reverse(source), PushedAt(times, source, now);
    forall i | 0 <= i < |a|
      ensures a[i] in t && t[a[i]] == now + |a| - 1 - i
    {
      assert a[i] == source[|source| - 1 - i] && a[i] in Elems(source);
    }
    forall i | 0 <= i < |b|
      ensures b[i] in t && t[b[i]] == times[b[i]] < now
    {
    }
  }

  lemma UntouchedNewestFirst(source: seq<Key>, b: seq<Key>, times: map<Key, nat>, now: nat)
    requires NoDup(source) && NewestFirst(b, times)
    requires forall i :: 0 <= i < |b| ==> b[i] !in source
    ensures NewestFirst(b, PushedAt(times, source, now))
  {
    PushedAtTimes(times, source, now);
  }

  lemma BucketKeepsOrder(s: LfuState, h: History, f: nat)
    requires Bucketed(s) && Ordered(s, h)
    ensures Ordered(AgedBucket(s, f), BucketAged(h, s, f))
  {
    if Halved(f) != f && f in s.buckets {
      var t, source := AgedBucket(s, f), s.buckets[f];
      PushedAtTimes(h.times, source, h.now);
      BucketListsFrequency(s, f);
      forall g | g in t.buckets
        ensures NewestFirst(t.buckets[g], BucketAged(h, s, f).times)
      {
        OtherBucketApart(s, f, g);
        if g == Halved(f) {
          MovedBucketNewestFirst(source, BucketAt(s.buckets, g), h.times, h.now);
        } else {
          UntouchedNewestFirst(source, s.buckets[g], h.times, h.now);
        }
      }
      forall k | k in t.freq
        ensures k in BucketAged(h, s, f).times && BucketAged(h, s, f).times[k] < BucketAged(h, s, f).now
      {
        if k in source {
          var i :| 0 <= i < |source| && source[i] == k;
        }
      }
    }
  }

  lemma OtherBucketApart(s: LfuState, f: nat, g: nat)
    requires Bucketed(s) && f in s.buckets && f != g
    ensures forall i :: 0 <= i < |BucketAt(s.buckets, g)| ==>
              BucketAt(s.buckets, g)[i] in s.freq && BucketAt(s.buckets, g)[i] !in s.buckets[f]
  {
    BucketListsFrequency(s, f);
    forall i | 0 <= i < |BucketAt(s.buckets, g)|
      ensures BucketAt(s.buckets, g)[i] in s.freq && BucketAt(s.buckets, g)[i] !in s.buckets[f]
    {
      assert s.buckets[g][i] in s.freq && s.freq[s.buckets[g][i]] == g;
    }
  }

  lemma {:induction false} PassKeepsOrder(s: LfuState, h: History, visit: seq<nat>)
    requires Bucketed(s) && Ordered(s, h)
    ensures Ordered(Aged(s, visit), PassRecorded(h, s, visit))
    decreases |visit|
  {
    if visit != [] {
      AgeBucketKeepsBuckets(s, visit[0]);
      BucketKeepsOrder(s, h, visit[0]);
      hide Bucketed, Ordered, AgedBucket, BucketAged;
      PassKeepsOrder(AgedBucket(s, visit[0]), BucketAged(h, s, visit[0]), visit[1..]);
    }
  }

  // ---------- Runs ----------

  lemma HitKeepsOrder(s: LfuState, h: History, key: Key, visit: seq<nat>)
    requires Bucketed(s) && Ordered(s, h)
    ensures Ordered(Accessed(s, key, visit), Recorded(h, s, Hit(key, visit)))
  {
    if key in s.freq {
      IncrementKeepsBuckets(s, key);
      IncrementKeepsOrder(s, h, key);
      if AgesOn(s, key) {
        var pushed := if s.freq[key] < MAX_FREQ then History(h.times[key := h.now], h.now + 1) else h;
        PassKeepsOrder(Incremented(s, key), pushed, visit);
      }
      hide Bucketed, Incremented, PassRecorded, Aged, NewestFirst;
    }
  }

  /** Every hook call, with or without an ageing pass, keeps every bucket sorted by the time of the push. */
  lemma HookKeepsOrder(s: LfuState, h: History, op: HookOp)
    requires Bucketed(s) && Ordered(s, h)
    ensures Ordered(Applied(s, op), Recorded(h, s, op))
  {
    match op {
      case Hit(key, visit) => HitKeepsOrder(s, h, key, visit);
      case Insertion(key) =>
        if key in s.freq {
          IncrementKeepsOrder(s, h, key);
        } else {
          PushKeepsOrder(s, h, key, 1);
        }
        hide Dropped, Pushed, NewestFirst, Bucketed;
      case Removal(key) =>
        if key in s.freq {
          DropKeepsOrder(s, h, key);
        }
        hide Dropped, Pushed, NewestFirst, Bucketed;
    }
  }

  lemma InvIsBucketed(s: LfuState)
    requires Inv(s)
    ensures Bucketed(s)
  {
  }

  lemma {:induction false} RunKeepsOrder(s: LfuState, h: History, ops: seq<HookOp>)
    requires Inv(s) && Ordered(s, h) && PossibleRun(s, ops)
    ensures Inv(AllApplied(s, ops)) && Ordered(AllApplied(s, ops), AllRecorded(h, s, ops))
    decreases |ops|
  {
    if ops != [] {
      hide Inv, Bucketed, Ordered, Applied, Recorded, Possible;
      InvIsBucketed(s);
      HookKeepsInv(s, ops[0]);
      HookKeepsOrder(s, h, ops[0]);
      RunKeepsOrder(Applied(s, ops[0]), Recorded(h, s, ops[0]), ops[1..]);
    }
  }

  /** Over every run, under every bucket order: the victim is, among the keys of the lowest frequency, the
      one that was pushed onto its bucket the longest ago. */
  lemma VictimIsOldestOfLowest(s: LfuState, h: History, ops: seq<HookOp>)
    requires Inv(s) && Ordered(s, h) && PossibleRun(s, ops)
    ensures var t, times := AllApplied(s, ops), AllRecorded(h, s, ops).times;
            && Bucketed(t) && t.freq.Keys <= times.Keys
            && forall v :: VictimOf(t) == Some(v) ==>
                 v in t.freq && forall k :: k in t.freq && k != v ==>
                   t.freq[v] < t.freq[k] || (t.freq[v] == t.freq[k] && times[v] < times[k])
  {
    RunKeepsOrder(s, h, ops);
    var t := AllApplied(s, ops);
    VictimIsLeastFrequent(t);
    forall k | k in t.freq
      ensures t.buckets != map[]
      ensures var f := Lowest(t.buckets); var b := t.buckets[f];
              t.freq[k] <= f && k != b[|b| - 1] ==>
                AllRecorded(h, s, ops).times[b[|b| - 1]] < AllRecorded(h, s, ops).times[k]
    {
      TailIsOldest(t, AllRecorded(h, s, ops), k);
    }
  }

  lemma TailIsOldest(t: LfuState, h: History, k: Key)
    requires Bucketed(t) && Ordered(t, h) && k in t.freq
    ensures t.buckets != map[] && k in h.times
    ensures var f := Lowest(t.buckets); var b := t.buckets[f];
            b[|b| - 1] in h.times && (t.freq[k] <= f && k != b[|b| - 1] ==> h.times[b[|b| - 1]] < h.times[k])
  {
    var f := Lowest(t.buckets);
    var b := t.buckets[f];
    assert NewestFirst(b, h.times);
    if t.freq[k] <= f {
      assert k in b;
      var i :| 0 <= i < |b| && b[i] == k;
    }
  }

  // ---------- What a pass does to older pushes ----------

  /** How often a pass moves the keys of frequency `f`. */
  function Moves(f: nat, visit: seq<nat>): nat
    decreases |visit|
  {
    if visit == [] then 0
    else if visit[0] == f && Halved(f) != f then 1 + Moves(Halved(f), visit[1..])
    else Moves(f, visit[1..])
  }

  lemma BucketReversesPushes(s: LfuState, h: History, f: nat, a: Key, b: Key)
    requires Bucketed(s) && Ordered(s, h) && a in s.freq && b in s.freq && a != b && s.freq[a] == s.freq[b]
    ensures a in BucketAged(h, s, f).times && b in BucketAged(h, s, f).times
    ensures (BucketAged(h, s, f).times[a] < BucketAged(h, s, f).times[b]) ==
            ((h.times[a] < h.times[b]) == (s.freq[a] != f || Halved(f) == f))
  {
    if Halved(f) != f && f in s.buckets {
      var source := s.buckets[f];
      PushedAtTimes(h.times, source, h.now);
      BucketListsFrequency(s, f);
      if s.freq[a] == f {
        var i :| 0 <= i < |source| && source[i] == a;
        var j :| 0 <= j < |source| && source[j] == b;
        assert NewestFirst(source, h.times);
      }
    }
  }

  lemma OneMoveReverses(s: LfuState, h: History, f: nat, a: Key, b: Key)
    requires Bucketed(s) && Ordered(s, h) && a in s.freq && b in s.freq && a != b && s.freq[a] == s.freq[b]
    ensures var t, h' := AgedBucket(s, f), BucketAged(h, s, f);
            && Bucketed(t) && Ordered(t, h') && a in t.freq && b in t.freq && t.freq[a] == t.freq[b]
            && a in h'.times && b in h'.times
            && ((h'.times[a] < h'.times[b]) == (h.times[a] < h.times[b]) <==> s.freq[a] != f || Halved(f) == f)
            && t.freq[a] == if s.freq[a] == f then Halved(f) else s.freq[a]
  {
    AgeBucketKeepsBuckets(s, f);
    BucketKeepsOrder(s, h, f);
    BucketReversesPushes(s, h, f, a, b);
    hide Bucketed, NewestFirst, BucketAged, AgedBucket;
  }

  lemma MovesOfFirst(f: nat, visit: seq<nat>)
    requires visit != []
    ensures var g := if f == visit[0] then Halved(f) else f;
            Moves(f, visit) == Moves(g, visit[1..]) + if f != visit[0] || Halved(f) == f then 0 else 1
  {
  }

  /** After a whole pass two keys of one frequency stand in the order of their earlier pushes if and only if
      the pass has moved them an even number of times: each move reverses their bucket. */
  lemma {:induction false} PassKeepsTiesIff(s: LfuState, h: History, visit: seq<nat>, a: Key, b: Key)
    requires Bucketed(s) && Ordered(s, h) && a in s.freq && b in s.freq && a != b && s.freq[a] == s.freq[b]
    requires a in h.times && b in h.times
    ensures var t := PassRecorded(h, s, visit).times;
            a in t && b in t && ((t[a] < t[b]) == (h.times[a] < h.times[b]) <==> Moves(s.freq[a], visit) % 2 == 0)
    decreases |visit|
  {
    hide Bucketed, Ordered, BucketAged, AgedBucket, Halved;
    if visit != [] {
      var f := visit[0];
      OneMoveReverses(s, h, f, a, b);
      MovesOfFirst(s.freq[a], visit);
      PassKeepsTiesIff(AgedBucket(s, f), BucketAged(h, s, f), visit[1..], a, b);
      hide Moves;
    }
  }

  lemma {:induction false} LowestNeverMoves(visit: seq<nat>)
    ensures Moves(1, visit) == 0
    decreases |visit|
  {
    if visit != [] {
      LowestNeverMoves(visit[1..]);
    }
  }

  lemma {:induction false} LastMovesOnce(f: nat, before: seq<nat>)
    requires f > 1 && f !in before
    ensures Moves(f, before + [f]) == 1
    decreases |before|
  {
    if before == [] {
      assert ([] + [f])[1..] == [];
    } else {
      assert (before + [f])[1..] == before[1..] + [f];
      LastMovesOnce(f, before[1..]);
    }
  }

  /** The pass leaves two keys in the order of their earlier pushes. */
  ghost predicate TieKept(s: LfuState, h: History, visit: seq<nat>, a: Key, b: Key) {
    var t := PassRecorded(h, s, visit).times;
    a in h.times && b in h.times && a in t && b in t && (t[a] < t[b]) == (h.times[a] < h.times[b])
  }

  lemma TieKeptIffEvenMoves(s: LfuState, h: History, visit: seq<nat>, a: Key, b: Key)
    requires Bucketed(s) && Ordered(s, h) && a in s.freq && b in s.freq && a != b && s.freq[a] == s.freq[b]
    ensures TieKept(s, h, visit, a, b) <==> Moves(s.freq[a], visit) % 2 == 0
  {
    PassKeepsTiesIff(s, h, visit, a, b);
  }

  lemma OrderEndingWith(buckets: set<nat>, f: nat) returns (before: seq<nat>)
    requires f in buckets
    ensures f !in before && Lists(before + [f], buckets)
  {
    before := OrderExists(buckets - {f});
    assert f !in Elems(before) && Elems(before + [f]) == Elems(before) + {f};
  }

  lemma FrequencyListed(s: LfuState, key: Key)
    requires Bucketed(s) && key in s.freq
    ensures s.freq[key] in s.buckets.Keys && s.freq[key] >= 1
  {
  }

  /** Every map order leaves two keys of one frequency in the order of their earlier pushes if and only if that
      frequency is 1, whose bucket is never moved. */
  lemma TiesKeptUnderEveryOrderIff(s: LfuState, h: History, a: Key, b: Key)
    requires Bucketed(s) && Ordered(s, h) && a in s.freq && b in s.freq && a != b && s.freq[a] == s.freq[b]
    ensures (forall visit :: Lists(visit, s.buckets.Keys) ==> TieKept(s, h, visit, a, b)) <==> s.freq[a] == 1
  {
    hide *;
    var f := s.freq[a];
    FrequencyListed(s, a);
    if f == 1 {
      forall visit | Lists(visit, s.buckets.Keys)
        ensures TieKept(s, h, visit, a, b)
      {
        LowestNeverMoves(visit);
        TieKeptIffEvenMoves(s, h, visit, a, b);
      }
    } else {
      var before := OrderEndingWith(s.buckets.Keys, f);
      LastMovesOnce(f, before);
      TieKeptIffEvenMoves(s, h, before + [f], a, b);
    }
  }

  // ---------- Rebuild ----------

  /** The pushes of a rebuild, in the order of the entries. */
  function RebuildRecorded(entries: seq<(Key, nat)>): History {
    if entries == [] then History(map[], 0)
    else
      var h := RebuildRecorded(entries[..|entries| - 1]);
      History(h.times[entries[|entries| - 1].0 := h.now], h.now + 1)
  }

  /** An LFU rebuilt from resident entries starts out with every bucket sorted by push time. */
  lemma {:induction false} RebuildIsOrdered(s: LfuState, entries: seq<(Key, nat)>)
    requires NoDup(KeysIn(entries))
    ensures Inv(Rebuilt(s, entries)) && Ordered(Rebuilt(s, entries), RebuildRecorded(entries))
    decreases |entries|
  {
    RebuildAdopts(s, entries);
    if entries != [] {
      var n := |entries| - 1;
      var front := entries[..n];
      var (key, count) := entries[n];
      assert KeysIn(front) == KeysIn(entries)[..n] && KeysIn(entries)[n] == key;
      RebuildIsOrdered(s, front);
      RebuildAdopts(s, front);
      InitialFreqsLookup(front);
      assert key !in Rebuilt(s, front).freq;
      PushKeepsOrder(Rebuilt(s, front), RebuildRecorded(front), key, InitialFreq(count));
    }
  }

  /** So the tie-break holds over every run from a new LFU and from one that a policy switch installs. */
  lemma InstalledVictimIsOldest(s: LfuState, entries: seq<(Key, nat)>, ops: seq<HookOp>)
    requires NoDup(KeysIn(entries)) && PossibleRun(Rebuilt(s, entries), ops)
    ensures var t := AllApplied(Rebuilt(s, entries), ops);
            var times := AllRecorded(RebuildRecorded(entries), Rebuilt(s, entries), ops).times;
            && Bucketed(t) && t.freq.Keys <= times.Keys
            && forall v :: VictimOf(t) == Some(v) ==>
                 v in t.freq && forall k :: k in t.freq && k != v ==>
                   t.freq[v] < t.freq[k] || (t.freq[v] == t.freq[k] && times[v] < times[k])
  {
    RebuildIsOrdered(s, entries);
    VictimIsOldestOfLowest(Rebuilt(s, entries), RebuildRecorded(entries), ops);
  }
}
