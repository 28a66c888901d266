/** Vocabulary shared by every component: keys and payloads, the container/list operations on
    sequences, iteration orders of Go maps, and sums over maps. */
module Base {
  datatype Option<+T> = None | Some(value: T)

  newtype Byte = i: int | 0 <= i < 256

  type Key = string

  type Value = seq<Byte>

  const TWO_TO_THE_32: int := 0x1_0000_0000
  const TWO_TO_THE_62: int := 0x4000_0000_0000_0000
  const TWO_TO_THE_63: int := 0x8000_0000_0000_0000
  const TWO_TO_THE_64: int := 0x1_0000_0000_0000_0000

  predicate IsInt64(x: int) {
    -TWO_TO_THE_63 <= x < TWO_TO_THE_63
  }

  /** The value an int64 variable holds once the exact result `x` has been stored in it. */
  function Wrap64(x: int): (r: int)
    ensures IsInt64(r)
    ensures IsInt64(x) ==> r == x
    decreases if x >= TWO_TO_THE_63 then x else if x < -TWO_TO_THE_63 then -x else 0
  {
    if x >= TWO_TO_THE_63 then Wrap64(x - TWO_TO_THE_64)
    else if x < -TWO_TO_THE_63 then Wrap64(x + TWO_TO_THE_64)
    else x
  }

  /** A uint32 counter increment. */
  function Inc32(x: nat): (r: nat)
    ensures r < TWO_TO_THE_32
  {
    (x + 1) % TWO_TO_THE_32
  }

  function Min(a: int, b: int): int {
    if a <= b then a else b
  }

  function Max(a: int, b: int): int {
    if a >= b then a else b
  }

  // ---------- Sequences without duplicates ----------

  ghost predicate NoDup<T>(s: seq<T>) {
    forall i, j :: 0 <= i < j < |s| ==> s[i] != s[j]
  }

  function Elems<T>(s: seq<T>): set<T> {
    set x | x in s
  }

  /** `s` is one of the orders in which a Go `range` over a map with keys `keys` may run. */
  ghost predicate Lists<T>(s: seq<T>, keys: set<T>) {
    NoDup(s) && Elems(s) == keys
  }

  /** container/list Remove: the list without (the first occurrence of) `x`. */
  function Without<T(==)>(s: seq<T>, x: T): seq<T> {
    if s == [] then []
    else if s[0] == x then s[1..]
    else [s[0]] + Without(s[1..], x)
  }

  function Reverse<T>(s: seq<T>): (r: seq<T>)
    ensures |r| == |s|
    ensures forall i :: 0 <= i < |s| ==> r[i] == s[|s| - 1 - i]
  {
    if s == [] then [] else [s[|s| - 1]] + Reverse(s[..|s| - 1])
  }

  lemma {:induction false} WithoutProps<T(!new)>(s: seq<T>, x: T)
    requires NoDup(s)
    ensures NoDup(Without(s, x))
    ensures forall y :: y in Without(s, x) <==> y in s && y != x
    ensures |Without(s, x)| == if x in s then |s| - 1 else |s|
  {
    if s != [] {
      var t := s[1..];
      assert forall y :: y in s <==> y == s[0] || y in t;
      if s[0] != x {
        WithoutProps(t, x);
        assert s[0] !in t && s[0] !in Without(t, x);
      }
    }
  }

  lemma {:induction false} WithoutAbsent<T(!new)>(s: seq<T>, x: T)
    requires x !in s
    ensures Without(s, x) == s
  {
    if s != [] {
      WithoutAbsent(s[1..], x);
    }
  }

  lemma {:induction false} WithoutAppend<T(!new)>(a: seq<T>, b: seq<T>, x: T)
    ensures Without(a + b, x) == if x in a then Without(a, x) + b else a + Without(b, x)
  {
    if a == [] {
      assert a + b == b;
    } else {
      assert (a + b)[1..] == a[1..] + b;
      if a[0] != x {
        WithoutAppend(a[1..], b, x);
      }
    }
  }

  /** Removing the last element of a duplicate-free list drops just that end. */
  lemma WithoutLast<T(!new)>(s: seq<T>)
    requires NoDup(s) && s != []
    ensures Without(s, s[|s| - 1]) == s[..|s| - 1]
  {
    var front, last := s[..|s| - 1], s[|s| - 1];
    assert s == front + [last];
    WithoutAppend(front, [last], last);
  }

  lemma NoDupConcat<T(!new)>(a: seq<T>, b: seq<T>)
    requires NoDup(a) && NoDup(b) && forall x :: x in a ==> x !in b
    ensures NoDup(a + b)
  {
    forall i, j | 0 <= i < j < |a + b|
      ensures (a + b)[i] != (a + b)[j]
    {
      if i < |a| <= j {
        assert a[i] in a && b[j - |a|] in b;
      }
    }
  }

  lemma {:induction false} ElemsCard<T(!new)>(s: seq<T>)
    requires NoDup(s)
    ensures |Elems(s)| == |s|
  {
    if s != [] {
      ElemsCard(s[1..]);
      assert Elems(s) == {s[0]} + Elems(s[1..]);
    }
  }

  /** Every finite key set has an order. */
  lemma {:induction false} OrderExists<T(!new)>(keys: set<T>) returns (order: seq<T>)
    ensures Lists(order, keys)
  {
    if keys == {} {
      order := [];
    } else {
      var k :| k in keys;
      var rest := OrderExists(keys - {k});
      order := [k] + rest;
      assert k !in Elems(rest);
      assert Elems(order) == {k} + Elems(rest);
    }
  }

  /** A Go `range` over a map: the keys, in an order the program cannot predict. */
  method RangeOrder<T(!new,==)>(keys: set<T>) returns (order: seq<T>)
    ensures Lists(order, keys)
  {
    order := [];
    var rest := keys;
    while rest != {}
      invariant rest <= keys && NoDup(order)
      invariant Elems(order) == keys - rest
      decreases rest
    {
      var k :| k in rest;
      assert k !in Elems(order);
      assert Elems(order + [k]) == Elems(order) + {k};
      order := order + [k];
      rest := rest - {k};
    }
  }

  // ---------- Weighted counts ----------

  function Tally<T>(s: seq<T>, weight: T -> nat): nat {
    if s == [] then 0 else weight(s[0]) + Tally(s[1..], weight)
  }

  lemma {:induction false} TallyConcat<T>(a: seq<T>, b: seq<T>, weight: T -> nat)
    ensures Tally(a + b, weight) == Tally(a, weight) + Tally(b, weight)
  {
    if a == [] {
      assert a + b == b;
    } else {
      assert (a + b)[1..] == a[1..] + b;
      TallyConcat(a[1..], b, weight);
    }
  }

  lemma TallyAppend<T>(s: seq<T>, x: T, weight: T -> nat)
    ensures Tally(s + [x], weight) == Tally(s, weight) + weight(x)
  {
    TallyConcat(s, [x], weight);
    assert [x][1..] == [];
  }

  lemma {:induction false} TallyUpdate<T>(s: seq<T>, i: nat, x: T, weight: T -> nat)
    requires i < |s|
    ensures Tally(s[i := x], weight) == Tally(s, weight) - weight(s[i]) + weight(x)
  {
    if i > 0 {
      assert s[i := x][1..] == s[1..][i - 1 := x];
      TallyUpdate(s[1..], i - 1, x, weight);
    } else {
      assert s[0 := x][1..] == s[1..];
    }
  }

  lemma {:induction false} TallyMonotone<T(!new)>(s: seq<T>, a: T -> nat, b: T -> nat)
    requires forall i :: 0 <= i < |s| ==> a(s[i]) <= b(s[i])
    ensures Tally(s, a) <= Tally(s, b)
  {
    if s != [] {
      TallyMonotone(s[1..], a, b);
    }
  }

  lemma {:induction false} TallyZero<T>(s: seq<T>, weight: T -> nat)
    requires forall i :: 0 <= i < |s| ==> weight(s[i]) == 0
    ensures Tally(s, weight) == 0
  {
    if s != [] {
      TallyZero(s[1..], weight);
    }
  }

  /** The keys of a list of entries, as a policy's Rebuild sees it: keys with their access counts. */
  function KeysIn(entries: seq<(Key, nat)>): (keys: seq<Key>)
    ensures |keys| == |entries|
    ensures forall i :: 0 <= i < |entries| ==> keys[i] == entries[i].0
  {
    seq(|entries|, i requires 0 <= i < |entries| => entries[i].0)
  }

  // ---------- Sums over finite maps ----------

  ghost function Sum(m: map<Key, int>): int
    decreases |m|
  {
    if m == map[] then 0
    else
      var k :| k in m;
      var rest := m - {k};
      assert m.Keys == rest.Keys + {k};
      m[k] + Sum(rest)
  }

  lemma {:induction false} SumSplit(m: map<Key, int>, k: Key)
    requires k in m
    ensures Sum(m) == m[k] + Sum(m - {k})
    decreases |m|
  {
    var p :| p in m && Sum(m) == m[p] + Sum(m - {p});
    if p != k {
      var rest := m - {p};
      assert m.Keys == rest.Keys + {p};
      SumSplit(rest, k);
      assert m.Keys == (m - {k}).Keys + {k};
      SumSplit(m - {k}, p);
      assert m - {p} - {k} == m - {k} - {p};
    }
  }

  lemma SumUpdate(m: map<Key, int>, k: Key, v: int)
    ensures Sum(m[k := v]) == Sum(m) - (if k in m then m[k] else 0) + v
  {
    SumSplit(m[k := v], k);
    assert m[k := v] - {k} == m - {k};
    if k in m {
      SumSplit(m, k);
    } else {
      assert m - {k} == m;
    }
  }

  lemma {:induction false} SumNonNegative(m: map<Key, int>)
    requires forall k :: k in m ==> 0 <= m[k]
    ensures 0 <= Sum(m)
    decreases |m|
  {
    if m != map[] {
      var k :| k in m;
      SumSplit(m, k);
      assert m.Keys == (m - {k}).Keys + {k};
      SumNonNegative(m - {k});
    }
  }
}
