/** container/list, as far as the policies use it. An element is a heap object, so a policy's map
    can hold a pointer into a list; the list itself is the sequence of its elements, front first. */
module ContainerList {
  import opened Base

  class Element {
    const key: Key

    constructor (key: Key)
      ensures this.key == key
    {
      this.key := key;
    }
  }

  function KeysOf(list: seq<Element>): (keys: seq<Key>)
    ensures |keys| == |list|
    ensures forall i :: 0 <= i < |list| ==> keys[i] == list[i].key
  {
    seq(|list|, i requires 0 <= i < |list| => list[i].key)
  }

  /** Unlinking an element by pointer removes its key, provided no other element holds that key. */
  lemma {:induction false} KeysOfWithout(list: seq<Element>, el: Element)
    requires el in list
    requires forall i :: 0 <= i < |list| && list[i].key == el.key ==> list[i] == el
    ensures KeysOf(Without(list, el)) == Without(KeysOf(list), el.key)
  {
    var rest := list[1..];
    assert KeysOf(list)[1..] == KeysOf(rest);
    if list[0] != el {
      var i :| 0 <= i < |list| && list[i] == el;
      assert rest[i - 1] == el;
      assert forall j :: 0 <= j < |rest| ==> rest[j] == list[j + 1];
      KeysOfWithout(rest, el);
      KeysOfCons(list[0], Without(rest, el));
    }
  }

  lemma KeysOfCons(x: Element, rest: seq<Element>)
    ensures KeysOf([x] + rest) == [x.key] + KeysOf(rest)
  {
  }

  lemma {:induction false} WithoutSubset(list: seq<Element>, x: Element, e: Element)
    requires e in Without(list, x)
    ensures e in list
  {
    if list[0] != x && e != list[0] {
      WithoutSubset(list[1..], x, e);
    }
  }
}

/** cache/policy/lru.go. The abstract state of an LRU policy is its recency order: the resident
    keys, most recently used first. */
module Lru {
  import opened Base
  import opened ContainerList

  const PER_ENTRY_BYTES := 64

  function Accessed(order: seq<Key>, key: Key): seq<Key> {
    if key in order then [key] + Without(order, key) else order
  }

  function Inserted(order: seq<Key>, key: Key): seq<Key> {
    if key in order then order else [key] + order
  }

  function VictimOf(order: seq<Key>): Option<Key> {
    if order == [] then None else Some(order[|order| - 1])
  }

  function CandidatesOf(order: seq<Key>, n: int): seq<Key> {
    if n <= 0 then [] else Reverse(order)[..Min(n, |order|)]
  }

  /** `n` rounds of asking for a victim and removing it, stopping when none is left. */
  function VictimRounds(order: seq<Key>, n: nat): seq<Key>
    decreases n
  {
    match VictimOf(order)
    case Some(key) => if n == 0 then [] else [key] + VictimRounds(Without(order, key), n - 1)
    case None => []
  }

  lemma OneMoreCandidate(order: seq<Key>, n: int)
    requires order != [] && n > 0
    ensures CandidatesOf(order, n) == [order[|order| - 1]] + CandidatesOf(order[..|order| - 1], n - 1)
  {
  }

  lemma OneMoreRound(order: seq<Key>, n: nat)
    requires NoDup(order) && order != [] && n > 0
    ensures VictimRounds(order, n) == [order[|order| - 1]] + VictimRounds(order[..|order| - 1], n - 1)
    ensures NoDup(order[..|order| - 1])
  {
    WithoutLast(order);
  }

  lemma NothingToEvict(order: seq<Key>, n: int)
    requires order == [] || n <= 0
    ensures CandidatesOf(order, n) == [] == VictimRounds(order, Max(n, 0))
  {
  }

  /** Batch eviction order is single-victim order repeated, for every batch size. */
  lemma {:induction false} CandidatesAreVictimRounds(order: seq<Key>, n: int)
    requires NoDup(order)
    ensures CandidatesOf(order, n) == VictimRounds(order, Max(n, 0))
    decreases n
  {
    hide CandidatesOf, VictimRounds, NoDup;
    if order == [] || n <= 0 {
      NothingToEvict(order, n);
    } else {
      OneMoreCandidate(order, n);
      OneMoreRound(order, n);
      CandidatesAreVictimRounds(order[..|order| - 1], n - 1);
    }
  }

  lemma HooksKeepDistinctKeys(order: seq<Key>, key: Key)
    requires NoDup(order)
    ensures NoDup(Accessed(order, key)) && Elems(Accessed(order, key)) == Elems(order)
    ensures NoDup(Inserted(order, key)) && Elems(Inserted(order, key)) == Elems(order) + {key}
    ensures NoDup(Without(order, key)) && Elems(Without(order, key)) == Elems(order) - {key}
  {
    WithoutProps(order, key);
    assert key in order ==> forall y :: y in Accessed(order, key) <==> y == key || y in Without(order, key);
    assert key !in order ==> forall y :: y in Inserted(order, key) <==> y == key || y in order;
  }

  /** A hit makes the key the most recent one; all others keep their order. */
  lemma AccessMakesMostRecent(order: seq<Key>, key: Key)
    requires NoDup(order) && key in order
    ensures Accessed(order, key) != [] && Accessed(order, key)[0] == key
    ensures Without(Accessed(order, key), key) == Without(order, key)
    ensures VictimOf(Accessed(order, key)) == Some(key) <==> |order| == 1
  {
    WithoutProps(order, key);
    HooksKeepDistinctKeys(order, key);
    var t := Accessed(order, key);
    assert t == [key] + Without(order, key);
    assert |t| > 1 ==> t[|t| - 1] != t[0];
  }

  /** A re-insertion is not a use: a tracked key keeps its place, and the next victim is the same. A new key is
      the most recent one. */
  lemma InsertKeepsPlaces(order: seq<Key>, key: Key)
    ensures key in order ==> Inserted(order, key) == order
    ensures key !in order ==> Inserted(order, key) == [key] + order
    ensures VictimOf(Inserted(order, key)) == if order == [] then Some(key) else VictimOf(order)
  {
  }

  /** A rebuilt LRU evicts in the order in which the entries were listed. */
  lemma RebuiltEvictsInListingOrder(entries: seq<Key>, n: nat)
    requires NoDup(entries) && n <= |entries|
    ensures VictimRounds(Reverse(entries), n) == entries[..n]
  {
    var order := Reverse(entries);
    ReverseKeepsDistinct(entries);
    CandidatesAreVictimRounds(order, n);
    if n > 0 {
      ReverseTwice(entries);
    }
  }

  lemma ReverseKeepsDistinct(entries: seq<Key>)
    requires NoDup(entries)
    ensures NoDup(Reverse(entries))
  {
  }

  lemma ReverseTwice(entries: seq<Key>)
    ensures Reverse(Reverse(entries)) == entries
  {
  }

  class LRU {
    var ll: seq<Element>
    var items: map<Key, Element>
    var n: int
    var metadata: int

    function Order(): seq<Key>
      reads this
    {
      KeysOf(ll)
    }

    ghost predicate Valid()
      reads this
    {
      && NoDup(Order())
      && items.Keys == Elems(Order())
      && (forall i :: 0 <= i < |ll| ==> items[ll[i].key] == ll[i])
      && n == |ll|
      && metadata == PER_ENTRY_BYTES * n
    }

    /** Following `items` to an element and unlinking it takes exactly its key out of the list. */
    lemma UnlinkIndexed(key: Key)
      requires Valid() && key in items
      ensures items[key].key == key
      ensures KeysOf(Without(ll, items[key])) == Without(Order(), key)
      ensures |Without(ll, items[key])| == |ll| - 1
      ensures NoDup(Without(Order(), key)) && Elems(Without(Order(), key)) == Elems(Order()) - {key}
      ensures forall i :: 0 <= i < |Without(ll, items[key])| ==>
                var e := Without(ll, items[key])[i]; e.key in items && e.key != key && items[e.key] == e
    {
      var p :| 0 <= p < |ll| && Order()[p] == key;
      KeysOfWithout(ll, ll[p]);
      WithoutProps(Order(), key);
      var rest := Without(ll, ll[p]);
      assert |KeysOf(rest)| == |rest|;
      forall i | 0 <= i < |rest|
        ensures rest[i].key in items && rest[i].key != key && items[rest[i].key] == rest[i]
      {
        WithoutSubset(ll, ll[p], rest[i]);
        assert KeysOf(rest)[i] in Without(Order(), key);
      }
    }

    constructor ()
      ensures Valid() && Order() == []
    {
      ll, items, n, metadata := [], map[], 0, 0;
    }

    /** Moving an indexed element to the front keeps list and index in step. */
    lemma MovedToFront(key: Key)
      requires Valid() && key in items
      ensures var moved := [items[key]] + Without(ll, items[key]);
              && KeysOf(moved) == Accessed(Order(), key) && |moved| == |ll|
              && NoDup(KeysOf(moved)) && Elems(KeysOf(moved)) == items.Keys
              && forall i :: 0 <= i < |moved| ==> moved[i].key in items && items[moved[i].key] == moved[i]
    {
      UnlinkIndexed(key);
      HooksKeepDistinctKeys(Order(), key);
      KeysOfCons(items[key], Without(ll, items[key]));
      assert key in Elems(Order());
      hide KeysOf, NoDup, Elems, Without;
    }

    lemma AccessOfUntracked(key: Key)
      requires Valid() && key !in items
      ensures Accessed(Order(), key) == Order()
    {
      assert key !in Elems(Order());
    }

    method OnAccess(key: Key)
      requires Valid()
      modifies this
      ensures Valid() && Order() == Accessed(old(Order()), key)
    {
      hide KeysOf, NoDup, Elems, Without, Accessed;
      if key in items {
        MovedToFront(key);
        var el := items[key];
        ll := [el] + Without(ll, el);
      } else {
        AccessOfUntracked(key);
      }
    }

    method OnInsert(key: Key)
      requires Valid()
      modifies this
      ensures Valid() && Order() == Inserted(old(Order()), key)
      ensures Order() == if key in old(Order()) then old(Order()) else [key] + old(Order())
    {
      if key in items {
        assert key in Elems(Order());
        return;
      }
      assert key !in Elems(Order());
      PushFront(key);
    }

    /** Links a fresh element for an untracked key at the head. */
    method PushFront(key: Key)
      requires Valid() && key !in Order()
      modifies this
      ensures Valid() && Order() == [key] + old(Order())
    {
      HooksKeepDistinctKeys(Order(), key);
      var el := new Element(key);
      assert forall i :: 0 <= i < |ll| ==> ll[i].key != key by {
        assert forall i :: 0 <= i < |ll| ==> Order()[i] == ll[i].key;
      }
      assert Inserted(Order(), key) == [key] + Order();
      KeysOfCons(el, ll);
      hide KeysOf, NoDup, Elems, Accessed, Without, Inserted;
      ll := [el] + ll;
      items := items[key := el];
      n := n + 1;
      metadata := metadata + PER_ENTRY_BYTES;
    }

    method OnRemove(key: Key)
      requires Valid()
      modifies this
      ensures Valid() && Order() == Without(old(Order()), key)
    {
      if key in items {
        var el := items[key];
        UnlinkIndexed(key);
        ll := Without(ll, el);
        items := items - {key};
        n := n - 1;
        metadata := metadata - PER_ENTRY_BYTES;
      } else {
        assert key !in Elems(Order());
        WithoutAbsent(Order(), key);
      }
    }

    method Victim() returns (key: Key, ok: bool)
      requires Valid()
      ensures VictimOf(Order()) == if ok then Some(key) else None
      ensures !ok ==> key == ""
    {
      if ll == [] {
        return "", false;
      }
      return ll[|ll| - 1].key, true;
    }

    method Candidates(count: int) returns (out: seq<Key>)
      requires Valid()
      ensures out == CandidatesOf(Order(), count)
    {
      if count <= 0 || n == 0 {
        return [];
      }
      var m := if count > n then n else count;
      out := [];
      var e, i := |ll| - 1, 0;
      while e >= 0 && i < m
        invariant 0 <= i <= m && e == |ll| - 1 - i
        invariant out == Reverse(Order())[..i]
      {
        out := out + [ll[e].key];
        e, i := e - 1, i + 1;
      }
    }

    method Rebuild(entries: seq<Key>)
      requires NoDup(entries)
      modifies this
      ensures Valid() && Order() == Reverse(entries)
    {
      ll, items, n, metadata := [], map[], 0, 0;
      for i := 0 to |entries|
        invariant Valid()
        invariant Order() == Reverse(entries[..i])
      {
        assert entries[i] !in Order();
        PushFront(entries[i]);
        assert Reverse(entries[..i + 1]) == [entries[i]] + Reverse(entries[..i]);
      }
      assert entries[..|entries|] == entries;
    }

    method MetadataBytes() returns (bytes: int)
      requires Valid()
      modifies this
      ensures Valid() && Order() == old(Order())
      ensures bytes == 64 * |Elems(Order())|
    {
      if metadata == 0 {
        metadata := n * PER_ENTRY_BYTES;
      }
      ElemsCard(Order());
      return metadata;
    }

    method Reset()
      modifies this
      ensures Valid() && Order() == []
    {
      ll, items, n, metadata := [], map[], 0, 0;
    }
  }
}
