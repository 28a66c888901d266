/** metrics/latency.go: the bucket arithmetic. A shift by n is division or multiplication by 2^n. */
module Buckets {
  import opened Base

  const SUB_BITS := 4
  const SUB_COUNT := 16
  const NUM_BUCKETS := (64 - SUB_BITS + 1) * SUB_COUNT

  function Pow2(n: nat): (r: nat)
    ensures r >= 1
  {
    if n == 0 then 1 else 2 * Pow2(n - 1)
  }

  /** bits.Len64: the number of bits needed to write `v`. */
  function Len64(v: nat): nat {
    if v == 0 then 0 else 1 + Len64(v / 2)
  }

  function BucketIndex(v: nat): int {
    if v < SUB_COUNT then v
    else
      var shift := Len64(v) - 1 - SUB_BITS;
      if shift < 0 then 0
      else
        var sub := v / Pow2(shift) - SUB_COUNT;
        (shift + 1) * SUB_COUNT + sub
  }

  /** The width of bucket `i`, and the least value in it, as bucketMidpoint reconstructs them. */
  function Width(i: nat): nat {
    if i < SUB_COUNT then 1 else Pow2(i / SUB_COUNT - 1)
  }

  function Low(i: nat): nat {
    if i < SUB_COUNT then i else (SUB_COUNT + i % SUB_COUNT) * Pow2(i / SUB_COUNT - 1)
  }

  function BucketMidpoint(i: nat): real {
    if i < SUB_COUNT then i as real else Low(i) as real + Width(i) as real / 2.0
  }

  lemma {:induction false} LenBounds(v: nat)
    requires v > 0
    ensures Len64(v) >= 1 && Pow2(Len64(v) - 1) <= v < Pow2(Len64(v))
  {
    if v > 1 {
      LenBounds(v / 2);
    } else {
      assert Len64(1) == 1 + Len64(0);
    }
  }

  lemma {:induction false} Pow2Monotone(m: nat, n: nat)
    requires m <= n
    ensures Pow2(m) <= Pow2(n)
  {
    if m < n {
      Pow2Monotone(m, n - 1);
    }
  }

  lemma Pow2Of64()
    ensures Pow2(64) == TWO_TO_THE_64 && Pow2(60) * 16 == TWO_TO_THE_64 && Pow2(59) * 32 == TWO_TO_THE_64
  {
    assert Pow2(8) == 256;
    assert Pow2(16) == 0x1_0000;
    assert Pow2(24) == 0x100_0000;
    assert Pow2(32) == 0x1_0000_0000;
    assert Pow2(40) == 0x100_0000_0000;
    assert Pow2(48) == 0x1_0000_0000_0000;
    assert Pow2(56) == 0x100_0000_0000_0000;
    assert Pow2(59) == 0x800_0000_0000_0000;
  }

  lemma LenOfUint64(v: nat)
    requires 0 < v < TWO_TO_THE_64
    ensures Len64(v) <= 64
  {
    LenBounds(v);
    Pow2Of64();
    if Len64(v) > 64 {
      Pow2Monotone(64, Len64(v) - 1);
    }
  }

  lemma MulMonotone(a: nat, b: nat, p: nat)
    requires a <= b
    ensures a * p <= b * p
  {
  }

  lemma DivBounds(v: nat, p: nat)
    requires p >= 1 && 16 * p <= v < 32 * p
    ensures 16 <= v / p < 32 && (v / p) * p <= v < (v / p) * p + p
  {
    var q, r := v / p, v % p;
    assert v == q * p + r;
    if q < 16 {
      MulMonotone(q, 15, p);
      assert false;
    } else if q >= 32 {
      MulMonotone(32, q, p);
      assert false;
    }
  }

  /** A value of at least 16 keeps its five leading bits; the rest is the offset inside its bucket. */
  lemma LeadingBits(v: nat, shift: nat)
    requires SUB_COUNT <= v < TWO_TO_THE_64 && shift == Len64(v) - 5
    ensures var q := v / Pow2(shift); 16 <= q < 32 && q * Pow2(shift) <= v < q * Pow2(shift) + Pow2(shift)
    ensures shift <= 59
  {
    LenBounds(v);
    LenOfUint64(v);
    FourMoreBits(shift);
    DivBounds(v, Pow2(shift));
  }

  lemma FourMoreBits(n: nat)
    ensures Pow2(n + 4) == 16 * Pow2(n) && Pow2(n + 5) == 32 * Pow2(n)
  {
    assert Pow2(n + 1) == 2 * Pow2(n);
    assert Pow2(n + 2) == 2 * Pow2(n + 1);
    assert Pow2(n + 3) == 2 * Pow2(n + 2);
    assert Pow2(n + 4) == 2 * Pow2(n + 3);
  }

  lemma LongEnough(v: nat)
    requires v >= SUB_COUNT
    ensures Len64(v) >= 5
  {
    LenBounds(v);
    assert Pow2(4) == 16;
    if Len64(v) < 5 {
      Pow2Monotone(Len64(v), 4);
      assert false;
    }
  }

  /** Every uint64 falls into one of the 976 buckets, the one whose interval it lies in. */
  lemma ValueInItsBucket(v: nat)
    requires v < TWO_TO_THE_64
    ensures 0 <= BucketIndex(v) < NUM_BUCKETS
    ensures Low(BucketIndex(v)) <= v < Low(BucketIndex(v)) + Width(BucketIndex(v))
  {
    if v >= SUB_COUNT {
      LongEnough(v);
      var shift := Len64(v) - 5;
      LeadingBits(v, shift);
      var q := v / Pow2(shift);
      var i := (shift + 1) * SUB_COUNT + (q - SUB_COUNT);
      assert BucketIndex(v) == i;
      assert i / SUB_COUNT == shift + 1 && i % SUB_COUNT == q - SUB_COUNT;
    }
  }

  /** The buckets follow each other without gap or overlap, from 0 up to 2^64. */
  lemma NextBucket(i: nat)
    ensures Low(i) + Width(i) == Low(i + 1)
  {
    if i >= SUB_COUNT {
      var e, sub := i / SUB_COUNT, i % SUB_COUNT;
      assert i == e * SUB_COUNT + sub;
      if sub < SUB_COUNT - 1 {
        assert (i + 1) / SUB_COUNT == e && (i + 1) % SUB_COUNT == sub + 1;
        assert (SUB_COUNT + sub) * Pow2(e - 1) + Pow2(e - 1) == (SUB_COUNT + sub + 1) * Pow2(e - 1);
      } else {
        assert (i + 1) / SUB_COUNT == e + 1 && (i + 1) % SUB_COUNT == 0;
        assert Pow2(e) == 2 * Pow2(e - 1);
      }
    } else if i == SUB_COUNT - 1 {
      assert Low(16) == 16;
    }
  }

  lemma {:induction false} BucketsAscend(i: nat, j: nat)
    requires i < j
    ensures Low(i) + Width(i) <= Low(j)
  {
    NextBucket(j - 1);
    if i < j - 1 {
      BucketsAscend(i, j - 1);
    }
  }

  /** The buckets end exactly at 2^64, so no shift, sum or bound of theirs overflows 64 bits. */
  lemma LastBucketEndsAt64Bits(i: nat)
    requires i < NUM_BUCKETS
    ensures Low(i) + Width(i) <= TWO_TO_THE_64
    ensures Low(NUM_BUCKETS - 1) + Width(NUM_BUCKETS - 1) == TWO_TO_THE_64
  {
    Pow2Of64();
    assert NUM_BUCKETS - 1 == 60 * SUB_COUNT + 15;
    assert Low(NUM_BUCKETS - 1) == 31 * Pow2(59);
    if i < NUM_BUCKETS - 1 {
      BucketsAscend(i, NUM_BUCKETS - 1);
    }
  }

  /** A value is in bucket `i` exactly when it lies in the interval bucketMidpoint reconstructs. */
  lemma BucketIffInterval(v: nat, i: nat)
    requires v < TWO_TO_THE_64
    ensures BucketIndex(v) == i <==> Low(i) <= v < Low(i) + Width(i)
  {
    ValueInItsBucket(v);
    var b := BucketIndex(v);
    if b < i {
      BucketsAscend(b, i);
    } else if i < b {
      BucketsAscend(i, b);
    }
  }

  lemma BucketIndexMonotone(v: nat, w: nat)
    requires v <= w < TWO_TO_THE_64
    ensures BucketIndex(v) <= BucketIndex(w)
  {
    ValueInItsBucket(v);
    ValueInItsBucket(w);
    if BucketIndex(w) < BucketIndex(v) {
      BucketsAscend(BucketIndex(w), BucketIndex(v));
    }
  }

  /** Every bucket is the bucket of some uint64. */
  lemma EveryBucketIsUsed(i: nat)
    requires i < NUM_BUCKETS
    ensures Low(i) < TWO_TO_THE_64 && BucketIndex(Low(i)) == i
  {
    LastBucketEndsAt64Bits(i);
    BucketIffInterval(Low(i), i);
  }

  lemma WideBucketsAreHigh(i: nat)
    requires i >= SUB_COUNT
    ensures Low(i) >= 16 * Width(i)
  {
    var p := Pow2(i / SUB_COUNT - 1);
    assert (SUB_COUNT + i % SUB_COUNT) * p >= 16 * p;
  }

  /** The midpoint is within half a bucket of every value of the bucket: exact below 16 ns, and within
      1/32 of the value from 16 ns on. */
  lemma MidpointError(v: nat)
    requires v < TWO_TO_THE_64
    ensures BucketIndex(v) >= 0
    ensures var m := BucketMidpoint(BucketIndex(v));
            && (v < 16 ==> m == v as real)
            && (v >= 16 ==> m - v as real <= v as real / 32.0 && v as real - m <= v as real / 32.0)
  {
    ValueInItsBucket(v);
    var i := BucketIndex(v);
    if v >= SUB_COUNT {
      assert i >= SUB_COUNT;
      WideBucketsAreHigh(i);
      var w, x := Width(i) as real, v as real;
      assert Low(i) as real <= x <= Low(i) as real + w;
      assert 16.0 * w <= x;
    }
  }

  lemma MidpointMonotone(i: nat, j: nat)
    requires i <= j
    ensures BucketMidpoint(i) <= BucketMidpoint(j)
  {
    if i < j {
      BucketsAscend(i, j);
      var w := Width(i) as real;
      assert Low(i) as real + w <= Low(j) as real;
    }
  }
}
