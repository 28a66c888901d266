/** cache/policy/lfu.go: the LFU policy object, over its bucket lists and its index of list elements. */
module Lfu {
  import opened Base
  import opened ContainerList
  import opened LfuStates
  import opened LfuLaws

  const PER_ENTRY_BYTES := 64

  /** The number of accesses between two ageing passes: floor(1 / decay), at least 1, or 0 for never. */
  function Period(decay: real): nat {
    if decay <= 0.0 then 0 else Max(1, (1.0 / decay).Floor)
  }

  /** `n` is the largest number of decays that fit into 1. */
  predicate FitsOne(n: real, decay: real) {
    n * decay <= 1.0 < (n + 1.0) * decay
  }

  /** The period is the largest number of decays that fit into 1, and it is 0 exactly when there is no decay. */
  lemma PeriodFitsOne(decay: real)
    requires 0.0 <= decay <= 1.0
    ensures Period(decay) == 0 <==> decay == 0.0
    ensures decay > 0.0 ==> FitsOne(Period(decay) as real, decay)
  {
    hide FitsOne;
    if decay > 0.0 {
      var q := PeriodIsFloor(decay);
      hide Period;
      FloorFits(q, Period(decay) as real, decay);
    }
  }

  lemma PeriodIsFloor(decay: real) returns (q: real)
    requires 0.0 < decay <= 1.0
    ensures Period(decay) >= 1 && q * decay == 1.0
    ensures Period(decay) as real <= q < Period(decay) as real + 1.0
  {
    q := 1.0 / decay;
    assert q >= 1.0;
  }

  lemma ScaledBounds(low: real, q: real, high: real, decay: real)
    requires decay > 0.0 && low <= q < high
    ensures low * decay <= q * decay < high * decay
  {
  }

  lemma FloorFits(q: real, n: real, decay: real)
    requires decay > 0.0 && q * decay == 1.0 && n <= q < n + 1.0
    ensures FitsOne(n, decay)
  {
    ScaledBounds(n, q, n + 1.0, decay);
  }

  /** What the index holds for a key: its element in the list of its bucket, and its frequency. */
  datatype Item = Item(el: Element, freq: nat)

  function KeyLists(buckets: map<nat, seq<Element>>): map<nat, seq<Key>> {
    map f | f in buckets :: KeysOf(buckets[f])
  }

  function Freqs(items: map<Key, Item>): map<Key, nat> {
    map k | k in items :: items[k].freq
  }

  /** Every element of every list is the one the index points to. */
  ghost predicate Linked(buckets: map<nat, seq<Element>>, items: map<Key, Item>) {
    forall f: nat, i: nat :: f in buckets && 0 <= i < |buckets[f]| ==>
      buckets[f][i].key in items && items[buckets[f][i].key].el == buckets[f][i]
  }

  ghost predicate Listed(buckets: map<nat, seq<Element>>, key: Key) {
    exists f: nat, i: nat :: f in buckets && 0 <= i < |buckets[f]| && buckets[f][i].key == key
  }

  /** No element pointer is stale: it is in the list of its bucket, and no other element there has its key. */
  lemma PointersAreLive(buckets: map<nat, seq<Element>>, items: map<Key, Item>, s: LfuState, key: Key)
    requires Bucketed(s) && s.buckets == KeyLists(buckets) && s.freq == Freqs(items)
    requires Linked(buckets, items) && key in items
    ensures var el, f := items[key].el, items[key].freq;
            && f in buckets && el in buckets[f] && el.key == key
            && forall i :: 0 <= i < |buckets[f]| && buckets[f][i].key == key ==> buckets[f][i] == el
  {
    var f := items[key].freq;
    assert Freqs(items)[key] == f;
    assert f in KeyLists(buckets) && key in KeyLists(buckets)[f];
    var i :| 0 <= i < |buckets[f]| && KeysOf(buckets[f])[i] == key;
    assert buckets[f][i].key == key;
  }

  /** A key that is not indexed by a well-formed state is in no list. */
  lemma UnlistedIfUntracked(buckets: map<nat, seq<Element>>, s: LfuState, key: Key)
    requires Bucketed(s) && s.buckets == KeyLists(buckets) && key !in s.freq
    ensures !Listed(buckets, key)
  {
    forall f: nat, i: nat | f in buckets && 0 <= i < |buckets[f]|
      ensures buckets[f][i].key != key
    {
      assert s.buckets[f][i] == buckets[f][i].key;
    }
  }

  lemma PushKeepsLinks(buckets: map<nat, seq<Element>>, items: map<Key, Item>, el: Element, f: nat)
    requires Linked(buckets, items) && !Listed(buckets, el.key)
    ensures Linked(buckets[f := [el] + ListAt(buckets, f)], items[el.key := Item(el, f)])
  {
    var after: map<nat, seq<Element>> := buckets[f := [el] + ListAt(buckets, f)];
    forall g: nat, i: nat | g in after && 0 <= i < |after[g]|
      ensures after[g][i].key in items[el.key := Item(el, f)]
      ensures items[el.key := Item(el, f)][after[g][i].key].el == after[g][i]
    {
      if g == f && i > 0 {
        assert after[g][i] == buckets[f][i - 1];
      } else if g != f {
        assert after[g][i] == buckets[g][i];
      }
    }
  }

  function ListAt(buckets: map<nat, seq<Element>>, f: nat): seq<Element> {
    if f in buckets then buckets[f] else []
  }

  lemma IndexOnFreqs(items: map<Key, Item>, el: Element, f: nat)
    ensures Freqs(items[el.key := Item(el, f)]) == Freqs(items)[el.key := f]
  {
  }

  lemma PushOnKeyLists(buckets: map<nat, seq<Element>>, el: Element, f: nat)
    ensures KeyLists(buckets[f := [el] + ListAt(buckets, f)]) == Pushed(KeyLists(buckets), f, el.key)
  {
    assert KeysOf([el] + ListAt(buckets, f)) == [el.key] + KeysOf(ListAt(buckets, f));
    assert KeysOf([]) == [];
  }

  /** The lists without one element, and without its list if that empties it. */
  function Cut(buckets: map<nat, seq<Element>>, f: nat, el: Element): map<nat, seq<Element>> {
    var rest := Without(ListAt(buckets, f), el);
    if rest == [] then buckets - {f} else buckets[f := rest]
  }

  lemma CutOnKeyLists(buckets: map<nat, seq<Element>>, f: nat, el: Element)
    requires f in buckets && el in buckets[f]
    requires forall i :: 0 <= i < |buckets[f]| && buckets[f][i].key == el.key ==> buckets[f][i] == el
    ensures KeyLists(Cut(buckets, f, el)) == Dropped(KeyLists(buckets), f, el.key)
  {
    KeysOfWithout(buckets[f], el);
    assert |KeysOf(Without(buckets[f], el))| == |Without(buckets[f], el)|;
  }

  lemma CutKeepsLinks(buckets: map<nat, seq<Element>>, items: map<Key, Item>, f: nat, el: Element)
    requires Linked(buckets, items) && f in buckets && el in buckets[f]
    ensures Linked(Cut(buckets, f, el), items)
  {
    var after: map<nat, seq<Element>> := Cut(buckets, f, el);
    forall g: nat, i: nat | g in after && 0 <= i < |after[g]|
      ensures after[g][i].key in items && items[after[g][i].key].el == after[g][i]
    {
      if g == f {
        WithoutSubset(buckets[f], el, after[g][i]);
        var j :| 0 <= j < |buckets[f]| && buckets[f][j] == after[g][i];
      } else {
        assert after[g][i] == buckets[g][i];
      }
    }
  }

  lemma UnindexKeepsLinks(buckets: map<nat, seq<Element>>, items: map<Key, Item>, key: Key)
    requires Linked(buckets, items) && !Listed(buckets, key)
    ensures Linked(buckets, items - {key})
  {
  }

  lemma DropOnKeyLists(buckets: map<nat, seq<Element>>, f: nat)
    ensures KeyLists(buckets - {f}) == KeyLists(buckets) - {f}
  {
  }

  /** The key at the front of a list is nowhere else. */
  ghost predicate OnceInFront(lists: map<nat, seq<Key>>, f: nat) {
    && f in lists && lists[f] != []
    && forall g, i :: g in lists && 0 <= i < |lists[g]| && lists[g][i] == lists[f][0] ==> g == f && i == 0
  }

  lemma CutFrontKeepsLinks(buckets: map<nat, seq<Element>>, items: map<Key, Item>, f: nat)
    requires Linked(buckets, items) && f in buckets && OnceInFront(KeyLists(buckets), f)
    ensures buckets[f] != [] && Linked(buckets[f := buckets[f][1..]], items)
    ensures !Listed(buckets[f := buckets[f][1..]], buckets[f][0].key)
  {
    var after: map<nat, seq<Element>> := buckets[f := buckets[f][1..]];
    var lists := KeyLists(buckets);
    assert buckets[f] != [] && lists[f][0] == buckets[f][0].key;
    forall g: nat, i: nat | g in after && 0 <= i < |after[g]|
      ensures after[g][i].key in items && items[after[g][i].key].el == after[g][i]
      ensures after[g][i].key != buckets[f][0].key
    {
      if g == f {
        assert after[g][i] == buckets[f][i + 1] && lists[f][i + 1] == after[g][i].key;
      } else {
        assert after[g][i] == buckets[g][i] && lists[g][i] == after[g][i].key;
      }
    }
  }

  lemma CutFrontOnKeyLists(buckets: map<nat, seq<Element>>, f: nat)
    requires f in buckets && buckets[f] != []
    ensures KeyLists(buckets[f := buckets[f][1..]]) == KeyLists(buckets)[f := KeyLists(buckets)[f][1..]]
  {
    assert KeysOf(buckets[f][1..]) == KeysOf(buckets[f])[1..];
  }

  lemma EmptyListKeepsLinks(buckets: map<nat, seq<Element>>, items: map<Key, Item>, f: nat)
    requires Linked(buckets, items) && f !in buckets
    ensures Linked(buckets[f := []], items)
  {
  }

  lemma DropListKeepsLinks(buckets: map<nat, seq<Element>>, items: map<Key, Item>, f: nat)
    requires Linked(buckets, items)
    ensures Linked(buckets - {f}, items)
  {
  }

  lemma PoppedElsewhere(s: LfuState, f: nat, m: nat, g: nat, i: nat)
    requires Bucketed(s) && f in s.buckets && f > 1 && m < |s.buckets[f]|
    requires var t := Popped(s, f, m); g in t.buckets && i < |t.buckets[g]| && !(g == f && i == 0)
    ensures Popped(s, f, m).buckets[g][i] != s.buckets[f][m]
  {
    var t := Popped(s, f, m);
    assert s.freq[s.buckets[f][m]] == f;
    if g == Halved(f) {
      var a := Reverse(s.buckets[f][..m]);
      if i < |a| {
        assert t.buckets[g][i] == a[i] == s.buckets[f][m - 1 - i];
      } else {
        assert t.buckets[g][i] == s.buckets[g][i - |a|];
      }
    } else if g == f {
      assert t.buckets[g][i] == s.buckets[f][m + i];
    } else {
      assert t.buckets[g][i] == s.buckets[g][i];
    }
  }

  lemma PoppedKeyOnce(s: LfuState, f: nat, m: nat)
    requires Bucketed(s) && f in s.buckets && f > 1 && m < |s.buckets[f]|
    ensures OnceInFront(Popped(s, f, m).buckets, f)
  {
    var t := Popped(s, f, m);
    assert t.buckets[f][0] == s.buckets[f][m];
    hide Popped, Bucketed;
    forall g, i | g in t.buckets && 0 <= i < |t.buckets[g]| && !(g == f && i == 0)
      ensures t.buckets[g][i] != s.buckets[f][m]
    {
      PoppedElsewhere(s, f, m, g, i);
    }
  }

  lemma NothingLeft(buckets: map<nat, seq<Element>>, s: LfuState, f: nat, m: nat)
    requires f in s.buckets && f > 1 && m <= |s.buckets[f]|
    requires f in buckets && buckets[f] == [] && KeyLists(buckets) == Popped(s, f, m).buckets
    ensures m == |s.buckets[f]|
  {
    assert KeyLists(buckets)[f] == [] && Popped(s, f, m).buckets[f] == s.buckets[f][m..];
  }

  class LFU {
    var buckets: map<nat, seq<Element>>
    var items: map<Key, Item>
    var n: int
    var ageCnt: nat
    var ageMax: nat
    var decay: real
    var metadata: int

    function View(): LfuState
      reads this
    {
      LfuState(KeyLists(buckets), Freqs(items), ageCnt, ageMax)
    }

    /** The counters fit the index, and the index the lists. */
    ghost predicate Indexed()
      reads this
    {
      n == |items| && metadata == PER_ENTRY_BYTES * n && Linked(buckets, items)
    }

    ghost predicate Valid()
      reads this
    {
      Inv(View()) && Indexed()
    }

    constructor ()
      ensures Valid() && View() == NewState(20) && ageMax == Period(decay)
    {
      buckets, items, n, ageCnt, metadata := map[], map[], 0, 0, 0;
      decay := 0.05;
      ageMax := Period(0.05);
    }

    /** The period follows the decay parameter, and the new one counts from now. */
    method SetParam(name: string, v: real) returns (ok: bool)
      requires Valid()
      modifies this
      ensures Valid()
      ensures ok <==> name == "decay_lambda" && 0.0 <= v <= 1.0
      ensures View() == if ok then old(View()).(ageCnt := 0, ageMax := Period(v)) else old(View())
      ensures decay == if ok then v else old(decay)
      ensures ok ==> ageCnt == 0 && (ageMax == 0 <==> v == 0.0)
      ensures ok && v > 0.0 ==> FitsOne(ageMax as real, v)
    {
      if name != "decay_lambda" || v < 0.0 || v > 1.0 {
        return false;
      }
      decay := v;
      ageCnt := 0;
      ageMax := Period(decay);
      PeriodFitsOne(v);
      hide Period, FitsOne, Bucketed, LFU.Indexed;
      return true;
    }

    /** Unlinks a tracked key's element, by its pointer, and drops the bucket when that empties it. */
    method Detach(key: Key)
      requires Bucketed(View()) && Linked(buckets, items) && key in items
      modifies this`buckets
      ensures KeyLists(buckets) == Dropped(old(KeyLists(buckets)), items[key].freq, key)
      ensures Linked(buckets, items) && !Listed(buckets, key)
    {
      PointersAreLive(buckets, items, View(), key);
      var el: Element, f := items[key].el, items[key].freq;
      CutOnKeyLists(buckets, f, el);
      CutKeepsLinks(buckets, items, f, el);
      DropKeepsBuckets(View(), key);
      ghost var s := View();
      var bucket := Without(buckets[f], el);
      if bucket == [] {
        buckets := buckets - {f};
      } else {
        buckets := buckets[f := bucket];
      }
      UnlistedIfUntracked(buckets, s.(buckets := Dropped(s.buckets, f, key), freq := s.freq - {key}), key);
    }

    /** Pushes a new element for an unlisted key onto the front of a bucket, creating the bucket if needed, and
        points the index to it. */
    method Attach(key: Key, f: nat)
      requires Linked(buckets, items) && !Listed(buckets, key)
      modifies this`buckets, this`items
      ensures KeyLists(buckets) == Pushed(old(KeyLists(buckets)), f, key)
      ensures Freqs(items) == old(Freqs(items))[key := f] && items.Keys == old(items.Keys) + {key}
      ensures Linked(buckets, items)
    {
      var el := new Element(key);
      PushKeepsLinks(buckets, items, el, f);
      PushOnKeyLists(buckets, el, f);
      IndexOnFreqs(items, el, f);
      hide Linked, Listed, KeyLists, Freqs, Pushed;
      ghost var before := buckets;
      if f !in buckets {
        buckets := buckets[f := []];
      }
      buckets := buckets[f := [el] + buckets[f]];
      assert buckets == before[f := [el] + ListAt(before, f)];
      items := items[key := Item(el, f)];
    }

    static lemma OneMoreKey(before: map<Key, Item>, after: map<Key, Item>, key: Key)
      requires key !in before && after.Keys == before.Keys + {key}
      ensures |after| == |before| + 1
    {
      assert |after.Keys| == |before.Keys| + 1;
    }

    /** Takes up a key that is not tracked. */
    method Adopt(key: Key, f: nat)
      requires Indexed() && !Listed(buckets, key) && key !in items
      modifies this`buckets, this`items, this`n, this`metadata
      ensures Indexed()
      ensures View() == old(View()).(buckets := Pushed(old(KeyLists(buckets)), f, key),
                                     freq := old(Freqs(items))[key := f])
    {
      hide Linked, Listed, KeyLists, Freqs, Pushed;
      ghost var before := items;
      Attach(key, f);
      OneMoreKey(before, items, key);
      n := n + 1;
      metadata := metadata + PER_ENTRY_BYTES;
    }

    /** Forgets the index entry of a key whose element is unlinked. */
    method Unindex(key: Key)
      requires Indexed() && !Listed(buckets, key) && key in items
      modifies this`items, this`n, this`metadata
      ensures Indexed() && Freqs(items) == old(Freqs(items)) - {key}
    {
      UnindexKeepsLinks(buckets, items, key);
      items := items - {key};
      n := n - 1;
      metadata := metadata - PER_ENTRY_BYTES;
      assert old(items.Keys) == items.Keys + {key};
    }

    /** Moves a tracked key to the front of another bucket, with a new element. */
    method Move(key: Key, f: nat)
      requires Bucketed(View()) && Indexed() && key in items
      modifies this`buckets, this`items
      ensures Indexed()
      ensures KeyLists(buckets) == Pushed(Dropped(old(KeyLists(buckets)), old(items[key].freq), key), f, key)
      ensures Freqs(items) == old(Freqs(items))[key := f]
    {
      hide Bucketed, Linked, Listed, KeyLists, Freqs, Pushed, Dropped;
      Detach(key);
      Attach(key, f);
      assert items.Keys == old(items.Keys);
    }

    method IncrementLocked(key: Key)
      requires Bucketed(View()) && Indexed() && key in items
      modifies this`buckets, this`items
      ensures View() == Incremented(old(View()), key) && Indexed()
    {
      assert items[key].freq == View().freq[key];
      hide LFU.Indexed, Bucketed, KeyLists, Freqs, Pushed, Dropped;
      var oldFreq := items[key].freq;
      var newFreq := oldFreq + 1;
      if newFreq > MAX_FREQ {
        newFreq := MAX_FREQ;
      }
      if oldFreq == newFreq {
        return;
      }
      Move(key, newFreq);
    }

    method OnAccess(key: Key) returns (ghost visit: seq<nat>)
      requires Valid()
      modifies this
      ensures VisitOf(old(View()), key, visit)
      ensures View() == Accessed(old(View()), key, visit)
      ensures Valid() && decay == old(decay)
    {
      visit := [];
      if key in items {
        visit := AccessLocked(key);
      }
      AccessKeepsInv(old(View()), key, visit);
    }

    method AccessLocked(key: Key) returns (ghost visit: seq<nat>)
      requires Bucketed(View()) && Indexed() && key in items
      modifies this
      ensures VisitOf(old(View()), key, visit)
      ensures View() == Accessed(old(View()), key, visit)
      ensures Indexed() && decay == old(decay)
    {
      hide Incremented, Aged, Bucketed, Linked;
      visit := [];
      IncrementKeepsBuckets(View(), key);
      IncrementLocked(key);
      ghost var s := View();
      if ageMax > 0 {
        ageCnt := ageCnt + 1;
        if ageCnt >= ageMax {
          BucketsIgnoreCounter(s, ageCnt);
          visit := AgeLocked();
          AgeingIgnoresCounter(s, old(ageCnt) + 1, visit);
          ageCnt := 0;
        }
      }
    }

    static lemma {:induction false} AgeingIgnoresCounter(s: LfuState, c: nat, visit: seq<nat>)
      ensures Aged(s.(ageCnt := c), visit) == Aged(s, visit).(ageCnt := c)
      decreases |visit|
    {
      if visit != [] {
        AgeingIgnoresCounter(AgedBucket(s, visit[0]), c, visit[1..]);
      }
    }

    method OnInsert(key: Key)
      requires Valid()
      modifies this
      ensures Valid() && decay == old(decay)
      ensures View() == Inserted(old(View()), key)
    {
      InsertKeepsInv(View(), key);
      assert key in items <==> key in View().freq;
      assert Bucketed(View());
      hide LFU.Indexed, Inv, Listed, KeyLists, Freqs, Pushed, Incremented, Bucketed;
      if key in items {
        IncrementLocked(key);
        return;
      }
      UnlistedIfUntracked(buckets, View(), key);
      Adopt(key, 1);
    }

    method OnRemove(key: Key)
      requires Valid()
      modifies this
      ensures Valid() && decay == old(decay)
      ensures View() == Removed(old(View()), key)
    {
      RemoveKeepsInv(View(), key);
      assert key in items <==> key in View().freq;
      if key !in items {
        return;
      }
      assert View().freq[key] == items[key].freq;
      hide Inv, Linked, Listed, KeyLists, Freqs, Dropped, Bucketed;
      Detach(key);
      Unindex(key);
    }

    method LowestFreqLocked() returns (best: nat)
      requires 0 !in buckets
      ensures best == if KeyLists(buckets) == map[] then 0 else Lowest(KeyLists(buckets))
    {
      best := 0;
      var seen := false;
      var order := RangeOrder(buckets.Keys);
      for i := 0 to |order|
        invariant seen == (i > 0) && (i == 0 ==> best == 0)
        invariant i > 0 ==> best in buckets && forall j :: 0 <= j < i ==> best <= order[j]
      {
        assert order[i] in Elems(order);
        if !seen || order[i] < best {
          best := order[i];
          seen := true;
        }
      }
      assert forall f :: f in buckets.Keys ==> f in Elems(order);
      assert KeyLists(buckets).Keys == buckets.Keys;
      if |order| > 0 {
        assert IsLeast(best, buckets.Keys);
        assert KeyLists(buckets) != map[] && best == Lowest(KeyLists(buckets));
      } else {
        assert KeyLists(buckets) == map[];
      }
    }

    method Victim() returns (key: Key, ok: bool)
      requires Valid()
      ensures VictimOf(View()) == if ok then Some(key) else None
      ensures !ok ==> key == ""
    {
      LowestBucketServes(View());
      var lowest := LowestFreqLocked();
      if lowest == 0 {
        return "", false;
      }
      var bucket := buckets[lowest];
      assert View().buckets[lowest] == KeysOf(bucket);
      return bucket[|bucket| - 1].key, true;
    }

    method Candidates(count: int) returns (out: seq<Key>)
      requires Valid()
      ensures out == CandidatesOf(View(), count)
    {
      LowestBucketServes(View());
      assert n == 0 <==> View().freq == map[] by {
        assert View().freq.Keys == items.Keys;
      }
      hide Bucketed, Inv, Lowest, Linked;
      if count <= 0 || n == 0 {
        return [];
      }
      ghost var b := View().buckets[Lowest(View().buckets)];
      out := TakeLaps(count, b);
    }

    /** The loop of Candidates: lap after lap over the lowest bucket. */
    method TakeLaps(count: nat, ghost b: seq<Key>) returns (out: seq<Key>)
      requires 0 !in buckets && KeyLists(buckets) != map[]
      requires b == KeyLists(buckets)[Lowest(KeyLists(buckets))] != []
      ensures out == Laps(b, count)
    {
      out := [];
      assert [] + Laps(b, count) == Laps(b, count);
      while |out| < count
        invariant |out| <= count && out + Laps(b, count - |out|) == Laps(b, count)
        decreases count - |out|
      {
        var lowest := LowestFreqLocked();
        ghost var before := out;
        assert b == KeysOf(buckets[lowest]);
        hide Lowest, KeyLists, Reverse;
        out := AppendFromTail(out, buckets[lowest], count);
        LapDone(before, b, |out| - |before|, count);
      }
      assert out + Laps(b, 0) == out;
    }

    /** Appends the keys of a bucket from its tail, as far as `count` allows. */
    static method AppendFromTail(start: seq<Key>, bucket: seq<Element>, count: int) returns (out: seq<Key>)
      requires bucket != [] && |start| < count
      ensures out == start + Reverse(KeysOf(bucket))[..Min(|bucket|, count - |start|)]
    {
      out := start;
      var e := |bucket| - 1;
      while e >= 0 && |out| < count
        invariant -1 <= e < |bucket| && |out| <= count
        invariant out == start + Reverse(KeysOf(bucket))[..|bucket| - 1 - e]
        decreases e
      {
        out := out + [bucket[e].key];
        e := e - 1;
      }
    }

    static lemma LapDone(start: seq<Key>, b: seq<Key>, k: nat, count: int)
      requires b != [] && |start| < count && k == Min(|b|, count - |start|)
      ensures start + Reverse(b)[..k] + Laps(b, count - |start| - k) == start + Laps(b, count - |start|)
    {
      var n := count - |start|;
      if n > |b| {
        assert Reverse(b)[..k] == Reverse(b);
        assert start + Reverse(b) + Laps(b, n - |b|) == start + (Reverse(b) + Laps(b, n - |b|));
      } else {
        assert Laps(b, 0) == [];
      }
    }

    /** Halves every frequency, bucket by bucket, in whatever order the map is ranged over. */
    method AgeLocked() returns (ghost visit: seq<nat>)
      requires Bucketed(View()) && Indexed()
      modifies this`buckets, this`items
      ensures Indexed() && Lists(visit, old(View()).buckets.Keys)
      ensures View() == Aged(old(View()), visit)
    {
      var freqs := RangeOrder(buckets.Keys);
      visit := freqs;
      ghost var s := View();
      assert s.buckets.Keys == buckets.Keys;
      hide Bucketed, Aged, Linked, ListsFrequency, AgedBucket;
      for i := 0 to |freqs|
        invariant View() == Aged(s, freqs[..i]) && Indexed()
      {
        NextBucketToAge(s, freqs, i);
        AgeBucketLocked(freqs[i]);
      }
      assert freqs[..|freqs|] == freqs;
    }

    /** One round of the ageing loop: every element of bucket `oldF` is unlinked from the front of its list, and
        a new one for its key goes to the front of the bucket of half its frequency. */
    method AgeBucketLocked(oldF: nat)
      requires oldF >= 1 && ListsFrequency(View(), oldF) && Bucketed(View()) && Indexed()
      modifies this`buckets, this`items
      ensures Indexed() && View() == AgedBucket(old(View()), oldF)
    {
      assert oldF in View().buckets;
      hide Popped, AgedBucket, ListsFrequency, LFU.Indexed, Bucketed, KeyLists;
      var newF: nat := oldF / 2;
      if newF < 1 {
        newF := 1;
      }
      if newF == oldF {
        AgeOneIsNothing(View(), oldF);
        return;
      }
      ghost var s := View();
      PopNone(s, oldF);
      EnsureBucket(newF);
      MoveAll(oldF, newF, s);
      PopAll(s, oldF);
      DropBucket(oldF);
    }

    /** The inner ageing loop, down to the last element of the bucket. */
    method MoveAll(oldF: nat, newF: nat, ghost s: LfuState)
      requires newF == Halved(oldF) && oldF > 1 && Bucketed(s) && ListsFrequency(s, oldF)
      requires View() == Popped(s, oldF, 0) && Indexed()
      modifies this`buckets, this`items
      ensures View() == Popped(s, oldF, |s.buckets[oldF]|) && Indexed()
    {
      assert oldF in View().buckets && newF in View().buckets;
      hide Bucketed, ListsFrequency, LFU.Indexed, Popped, Freqs, KeyLists;
      ghost var m := 0;
      while buckets[oldF] != []
        invariant oldF in buckets && newF in buckets && m <= |s.buckets[oldF]|
        invariant View() == Popped(s, oldF, m) && Indexed()
        decreases |s.buckets[oldF]| - m
      {
        MoveFront(oldF, newF, s, m);
        m := m + 1;
      }
      NothingLeft(buckets, s, oldF, m);
    }

    method DropBucket(f: nat)
      requires Indexed()
      modifies this`buckets
      ensures Indexed() && KeyLists(buckets) == old(KeyLists(buckets)) - {f}
    {
      DropListKeepsLinks(buckets, items, f);
      DropOnKeyLists(buckets, f);
      hide Linked, KeyLists;
      buckets := buckets - {f};
    }

    method EnsureBucket(f: nat)
      requires Indexed()
      modifies this`buckets
      ensures Indexed() && f in buckets
      ensures KeyLists(buckets) == old(KeyLists(buckets))[f := BucketAt(old(KeyLists(buckets)), f)]
    {
      if f !in buckets {
        EmptyListKeepsLinks(buckets, items, f);
        buckets := buckets[f := []];
        assert KeysOf([]) == [];
      }
    }

    /** One step of the inner ageing loop. */
    method MoveFront(oldF: nat, newF: nat, ghost s: LfuState, ghost m: nat)
      requires newF == Halved(oldF) && oldF > 1 && Bucketed(s) && ListsFrequency(s, oldF)
      requires m <= |s.buckets[oldF]| && oldF in buckets && View() == Popped(s, oldF, m) && Indexed() && buckets[oldF] != []
      modifies this`buckets, this`items
      ensures m < |s.buckets[oldF]| && View() == Popped(s, oldF, m + 1) && Indexed()
      ensures oldF in buckets && newF in buckets
    {
      assert KeysOf(buckets[oldF]) == s.buckets[oldF][m..];
      PopOne(s, oldF, m);
      PoppedKeyOnce(s, oldF, m);
      hide Popped, Bucketed, ListsFrequency;
      Relink(oldF, newF);
    }

    /** Takes the front element out of one list and pushes a new one for its key onto another. */
    method Relink(oldF: nat, newF: nat)
      requires oldF in buckets && newF in buckets && oldF != newF && buckets[oldF] != [] && Indexed()
      requires OnceInFront(KeyLists(buckets), oldF)
      modifies this`buckets, this`items
      ensures Indexed()
      ensures var lists, key := old(KeyLists(buckets)), old(KeyLists(buckets))[oldF][0];
              && KeyLists(buckets) == lists[oldF := lists[oldF][1..]][newF := [key] + lists[newF]]
              && key in old(items) && Freqs(items) == old(Freqs(items))[key := newF]
    {
      var el := buckets[oldF][0];
      var newEl := new Element(el.key);
      assert el.key in items;
      CutFrontKeepsLinks(buckets, items, oldF);
      CutFrontOnKeyLists(buckets, oldF);
      hide Linked, OnceInFront, Listed;
      buckets := buckets[oldF := buckets[oldF][1..]];
      PushKeepsLinks(buckets, items, newEl, newF);
      PushOnKeyLists(buckets, newEl, newF);
      buckets := buckets[newF := [newEl] + buckets[newF]];
      items := items[el.key := Item(newEl, newF)];
      assert items.Keys == old(items.Keys);
    }

    static lemma AgeOneIsNothing(s: LfuState, f: nat)
      requires Halved(f) == f
      ensures AgedBucket(s, f) == s
    {
    }

    method Rebuild(entries: seq<(Key, nat)>)
      requires NoDup(KeysIn(entries))
      modifies this
      ensures Valid() && decay == old(decay)
      ensures View() == Rebuilt(NewState(old(ageMax)), entries)
    {
      buckets, items, n, metadata, ageCnt := map[], map[], 0, 0, 0;
      for i := 0 to |entries|
        invariant View() == Rebuilt(NewState(old(ageMax)), entries[..i])
        invariant Indexed()
        invariant decay == old(decay)
      {
        var (key, count) := entries[i];
        var freq := count;
        if freq < 1 {
          freq := 1;
        }
        if freq > MAX_FREQ {
          freq := MAX_FREQ;
        }
        AdoptNext(NewState(old(ageMax)), entries, i);
        assert key !in items by {
          assert key !in Freqs(items);
        }
        hide Bucketed, LFU.Indexed, Listed, Rebuilt, Pushed, KeyLists, Freqs;
        UnlistedIfUntracked(buckets, View(), key);
        Adopt(key, freq);
      }
      assert entries[..|entries|] == entries;
      RebuildAdopts(NewState(old(ageMax)), entries);
    }

    static lemma AdoptNext(s: LfuState, entries: seq<(Key, nat)>, i: nat)
      requires NoDup(KeysIn(entries)) && i < |entries|
      ensures var before, (key, count) := Rebuilt(s, entries[..i]), entries[i];
              && Bucketed(before) && key !in before.freq
              && Rebuilt(s, entries[..i + 1]) ==
                   before.(buckets := Pushed(before.buckets, InitialFreq(count), key),
                           freq := before.freq[key := InitialFreq(count)])
    {
      assert entries[..i + 1][..i] == entries[..i];
      assert KeysIn(entries[..i]) == KeysIn(entries)[..i];
      assert KeysIn(entries)[i] == entries[i].0;
      RebuildAdopts(s, entries[..i]);
      InitialFreqsLookup(entries[..i]);
    }

    method MetadataBytes() returns (bytes: int)
      requires Valid()
      modifies this`metadata
      ensures Valid() && bytes == 64 * |items|
    {
      if metadata == 0 {
        metadata := n * PER_ENTRY_BYTES;
      }
      return metadata;
    }

    method Reset()
      modifies this
      ensures Valid() && decay == old(decay) && View() == NewState(old(ageMax))
    {
      buckets, items, n, ageCnt, metadata := map[], map[], 0, 0, 0;
    }
  }
}
