/** Log-linear latency buckets: 64 linear sub-buckets per power-of-two octave. */
module Histogram {
  import opened Bits

  const SUB_BITS: nat := 6
  const SUB_COUNT: nat := 64
  const MAX_BITS: nat := 42
  const NUM_BINS: nat := 2368   // 64 + (42 - 6) * 64

  function BitWidth(v: nat): nat {
    if v == 0 then 0 else 1 + BitWidth(v / 2)
  }

  /** The bucket of a value, by its top bit and the six bits below it. */
  function BucketIndex(v: nat): nat {
    if v < SUB_COUNT then v
    else
      WidthOfLarge(v);
      var shift := BitWidth(v) - 1 - SUB_BITS;
      SubBucket(v, shift);
      SUB_COUNT * (shift + 1) + (v / Pow2(shift) - SUB_COUNT)
  }

  function BucketUpper(i: nat): nat {
    if i < SUB_COUNT then i
    else (SUB_COUNT + i % SUB_COUNT + 1) * Pow2(i / SUB_COUNT - 1) - 1
  }

  /** The smallest value of a bucket. */
  function BucketLower(i: nat): nat {
    if i < SUB_COUNT then i
    else (SUB_COUNT + i % SUB_COUNT) * Pow2(i / SUB_COUNT - 1)
  }

  // ---- Arithmetic of one octave ----

  /** The top bit brackets the value. */
  lemma {:induction false} WidthBrackets(v: nat)
    requires v > 0
    ensures BitWidth(v) > 0 && Pow2(BitWidth(v) - 1) <= v < Pow2(BitWidth(v))
  {
    if v > 1 {
      WidthBrackets(v / 2);
      var w := BitWidth(v / 2);
      assert Pow2(w) == 2 * Pow2(w - 1);
      assert Pow2(w + 1) == 2 * Pow2(w);
    }
  }

  lemma WidthOfLarge(v: nat)
    requires v >= SUB_COUNT
    ensures BitWidth(v) >= SUB_BITS + 1
  {
    WidthBrackets(v);
    assert Pow2(SUB_BITS) == 64;
    if BitWidth(v) < SUB_BITS + 1 {
      Pow2Grows(BitWidth(v), SUB_BITS);
    }
  }

  lemma SixtyFour(shift: nat)
    ensures Pow2(shift + SUB_BITS) == SUB_COUNT * Pow2(shift)
  {
    Pow2Add(shift, SUB_BITS);
    assert Pow2(SUB_BITS) == 64;
  }

  lemma QuotientBracket(v: nat, d: nat, lo: nat, hi: nat)
    requires d > 0 && lo * d <= v < hi * d
    ensures lo <= v / d < hi
    ensures (v / d) * d <= v < (v / d + 1) * d
  {
  }

  lemma OctaveBounds(v: nat, shift: nat)
    requires v >= SUB_COUNT && BitWidth(v) == shift + SUB_BITS + 1
    ensures SUB_COUNT * Pow2(shift) <= v < 2 * SUB_COUNT * Pow2(shift)
  {
    WidthBrackets(v);
    SixtyFour(shift);
    assert Pow2(shift + SUB_BITS + 1) == 2 * Pow2(shift + SUB_BITS);
  }

  /** Dividing by the octave's width leaves a seven-bit number. */
  lemma SubBucket(v: nat, shift: nat)
    requires v >= SUB_COUNT && BitWidth(v) == shift + SUB_BITS + 1
    ensures SUB_COUNT <= v / Pow2(shift) < 2 * SUB_COUNT
    ensures var q := v / Pow2(shift); q * Pow2(shift) <= v < (q + 1) * Pow2(shift)
  {
    OctaveBounds(v, shift);
    QuotientBracket(v, Pow2(shift), SUB_COUNT, 2 * SUB_COUNT);
  }

  lemma SplitIndex(shift: nat, sub: nat)
    requires sub < SUB_COUNT
    ensures var i := SUB_COUNT * (shift + 1) + sub; i / SUB_COUNT == shift + 1 && i % SUB_COUNT == sub
  {
  }

  // ---- Every value lies in its own bucket and no other ----

  lemma InOwnBucket(v: nat)
    ensures BucketLower(BucketIndex(v)) <= v <= BucketUpper(BucketIndex(v))
  {
    if v >= SUB_COUNT {
      WidthOfLarge(v);
      var shift := BitWidth(v) - 1 - SUB_BITS;
      SubBucket(v, shift);
      SplitIndex(shift, v / Pow2(shift) - SUB_COUNT);
    }
  }

  lemma LaterBucketsAdjacent(oct: nat, sub: nat)
    requires sub < SUB_COUNT
    ensures var i := SUB_COUNT * (oct + 1) + sub;
            BucketLower(i) <= BucketUpper(i) && BucketLower(i + 1) == BucketUpper(i) + 1
  {
    var i := SUB_COUNT * (oct + 1) + sub;
    SplitIndex(oct, sub);
    assert BucketUpper(i) == (SUB_COUNT + sub + 1) * Pow2(oct) - 1;
    if sub + 1 < SUB_COUNT {
      SplitIndex(oct, sub + 1);
      assert BucketLower(i + 1) == (SUB_COUNT + sub + 1) * Pow2(oct);
    } else {
      SplitIndex(oct + 1, 0);
      assert i + 1 == SUB_COUNT * (oct + 2);
      assert BucketLower(i + 1) == SUB_COUNT * Pow2(oct + 1) == 2 * SUB_COUNT * Pow2(oct);
    }
  }

  /** Buckets are adjacent: no gap and no overlap. */
  lemma BucketsAdjacent(i: nat)
    ensures BucketLower(i + 1) == BucketUpper(i) + 1
    ensures BucketLower(i) <= BucketUpper(i)
  {
    if i >= SUB_COUNT {
      LaterBucketsAdjacent(i / SUB_COUNT - 1, i % SUB_COUNT);
    } else if i == SUB_COUNT - 1 {
      assert Pow2(0) == 1;
    }
  }

  lemma {:induction false} BucketsAscend(i: nat, j: nat)
    requires i < j
    ensures BucketUpper(i) < BucketLower(j)
    decreases j
  {
    BucketsAdjacent(j - 1);
    if i < j - 1 {
      BucketsAscend(i, j - 1);
    }
  }

  /** A value maps to a bucket exactly when it lies between that bucket's bounds. */
  lemma BucketIff(v: nat, i: nat)
    ensures BucketIndex(v) == i <==> BucketLower(i) <= v <= BucketUpper(i)
  {
    InOwnBucket(v);
    var own := BucketIndex(v);
    if own < i {
      BucketsAscend(own, i);
    } else if i < own {
      BucketsAscend(i, own);
    }
  }

  /** `BucketUpper(i)` is the largest value of bucket i, and the next value opens bucket i + 1. */
  lemma UpperIsLast(i: nat)
    ensures BucketIndex(BucketUpper(i)) == i && BucketIndex(BucketUpper(i) + 1) == i + 1
    ensures forall v: nat :: BucketIndex(v) == i ==> v <= BucketUpper(i)
  {
    BucketsAdjacent(i);
    BucketsAdjacent(i + 1);
    BucketIff(BucketUpper(i), i);
    BucketIff(BucketUpper(i) + 1, i + 1);
    forall v: nat | BucketIndex(v) == i ensures v <= BucketUpper(i) {
      BucketIff(v, i);
    }
  }

  lemma IndexMonotone(v: nat, w: nat)
    requires v <= w
    ensures BucketIndex(v) <= BucketIndex(w)
  {
    InOwnBucket(v);
    InOwnBucket(w);
    if BucketIndex(w) < BucketIndex(v) {
      BucketsAscend(BucketIndex(w), BucketIndex(v));
    }
  }

  /** Consecutive values are in the same bucket or in adjacent ones. */
  lemma IndexStep(v: nat)
    ensures BucketIndex(v) <= BucketIndex(v + 1) <= BucketIndex(v) + 1
  {
    var i := BucketIndex(v);
    IndexMonotone(v, v + 1);
    InOwnBucket(v);
    UpperIsLast(i);
    IndexMonotone(v + 1, BucketUpper(i) + 1);
  }

  lemma Threshold(i: nat, v: nat)
    ensures BucketIndex(v) <= i <==> v <= BucketUpper(i)
  {
    UpperIsLast(i);
    if v <= BucketUpper(i) {
      IndexMonotone(v, BucketUpper(i));
    } else {
      IndexMonotone(BucketUpper(i) + 1, v);
    }
  }

  lemma TopBin()
    ensures BucketUpper(NUM_BINS - 1) == Pow2(MAX_BITS) - 1
  {
    SplitIndex(35, 63);
    SixtyFour(36);
    assert BucketUpper(NUM_BINS - 1) == 2 * SUB_COUNT * Pow2(35) - 1;
  }

  /** The bins cover exactly the values below 2^42. */
  lemma BinsCover(v: nat)
    ensures BucketIndex(v) < NUM_BINS <==> v < Pow2(MAX_BITS)
  {
    TopBin();
    Threshold(NUM_BINS - 1, v);
  }

  /** Reporting a bucket's upper bound overstates a value by at most one sixty-fourth of it. */
  lemma RelativeError(v: nat)
    ensures var r := BucketUpper(BucketIndex(v)); v <= r && 64 * (r - v) <= v
  {
    InOwnBucket(v);
    var i := BucketIndex(v);
    if i >= SUB_COUNT {
      WidthBound(SUB_COUNT + i % SUB_COUNT, Pow2(i / SUB_COUNT - 1), v);
    }
  }

  lemma WidthBound(q: nat, width: nat, v: nat)
    requires q >= 64 && width >= 1 && q * width <= v
    ensures 64 * ((q + 1) * width - 1 - v) <= v
  {
  }

  // ---- Counting samples ----

  /** The bin a sample is recorded in: the last bin takes everything above. */
  function Bin(v: nat): (i: nat)
    ensures i < NUM_BINS
  {
    if BucketIndex(v) >= NUM_BINS then NUM_BINS - 1 else BucketIndex(v)
  }

  function CountBin(s: seq<nat>, i: nat): nat
    decreases |s|
  {
    if s == [] then 0 else CountBin(s[..|s| - 1], i) + (if Bin(s[|s| - 1]) == i then 1 else 0)
  }

  /** Samples in bins before `i`. */
  function CountBefore(s: seq<nat>, i: nat): nat
    decreases |s|
  {
    if s == [] then 0 else CountBefore(s[..|s| - 1], i) + (if Bin(s[|s| - 1]) < i then 1 else 0)
  }

  function CountLess(s: seq<nat>, x: nat): nat
    decreases |s|
  {
    if s == [] then 0 else CountLess(s[..|s| - 1], x) + (if s[|s| - 1] < x then 1 else 0)
  }

  function CountAtMost(s: seq<nat>, x: nat): nat
    decreases |s|
  {
    if s == [] then 0 else CountAtMost(s[..|s| - 1], x) + (if s[|s| - 1] <= x then 1 else 0)
  }

  /** `x` is the sample of nearest rank `rank`: fewer than `rank` samples are smaller, and at least `rank`
      are no larger. */
  predicate HasRank(s: seq<nat>, rank: nat, x: nat) {
    x in s && CountLess(s, x) < rank <= CountAtMost(s, x)
  }

  lemma {:induction false} CountSteps(s: seq<nat>, i: nat)
    ensures CountBefore(s, i + 1) == CountBefore(s, i) + CountBin(s, i)
    ensures CountBefore(s, 0) == 0
    ensures CountBefore(s, NUM_BINS) == |s|
    decreases |s|
  {
    if s != [] {
      CountSteps(s[..|s| - 1], i);
    }
  }

  lemma BinMonotone(v: nat, w: nat)
    requires v <= w
    ensures Bin(v) <= Bin(w)
  {
    IndexMonotone(v, w);
  }

  lemma {:induction false} BinsBracketRank(s: seq<nat>, x: nat)
    ensures CountAtMost(s, x) <= CountBefore(s, Bin(x) + 1)
    ensures CountBefore(s, Bin(x)) <= CountLess(s, x)
    decreases |s|
  {
    if s != [] {
      BinsBracketRank(s[..|s| - 1], x);
      var y := s[|s| - 1];
      if y <= x {
        BinMonotone(y, x);
      }
      if x <= y {
        BinMonotone(x, y);
      }
    }
  }

  lemma {:induction false} CountBeforeGrows(s: seq<nat>, i: nat, j: nat)
    requires i <= j
    ensures CountBefore(s, i) <= CountBefore(s, j)
    decreases |s|
  {
    if s != [] {
      CountBeforeGrows(s[..|s| - 1], i, j);
    }
  }

  /** The bin where the cumulative count first reaches `rank`. */
  predicate Reaches(s: seq<nat>, rank: nat, i: nat) {
    CountBefore(s, i) < rank <= CountBefore(s, i + 1)
  }

  lemma ReachesOnce(s: seq<nat>, rank: nat, i: nat, j: nat)
    requires Reaches(s, rank, i) && Reaches(s, rank, j)
    ensures i == j
  {
    if i < j {
      CountBeforeGrows(s, i + 1, j);
    } else if j < i {
      CountBeforeGrows(s, j + 1, i);
    }
  }

  /** The walk stops in the bin of the exact sample of that rank. */
  lemma WalkFindsRank(s: seq<nat>, rank: nat, i: nat, x: nat)
    requires Reaches(s, rank, i) && HasRank(s, rank, x)
    ensures i == Bin(x)
  {
    BinsBracketRank(s, x);
    ReachesOnce(s, rank, i, Bin(x));
  }

  /** The reported percentile is at least the exact sample and within 1/64 of it, below 2^42 ns. */
  lemma PercentileError(s: seq<nat>, rank: nat, i: nat, x: nat)
    requires Reaches(s, rank, i) && HasRank(s, rank, x)
    ensures x < Pow2(MAX_BITS) ==> x <= BucketUpper(i) && 64 * (BucketUpper(i) - x) <= x
    ensures x >= Pow2(MAX_BITS) ==> BucketUpper(i) == Pow2(MAX_BITS) - 1
  {
    WalkFindsRank(s, rank, i, x);
    BinsCover(x);
    TopBin();
    RelativeError(x);
  }

  /** Larger ranks never report smaller values. */
  lemma PercentileMonotone(s: seq<nat>, rank: nat, rank': nat, i: nat, i': nat)
    requires rank <= rank' && Reaches(s, rank, i) && Reaches(s, rank', i')
    ensures BucketUpper(i) <= BucketUpper(i')
  {
    if i' < i {
      CountBeforeGrows(s, i' + 1, i);
    } else if i < i' {
      BucketsAscend(i, i');
      BucketsAdjacent(i');
    }
  }

  /** Every rank from 1 to the number of samples is held by some sample. */
  lemma RankExists(s: seq<nat>, rank: nat) returns (x: nat)
    requires 1 <= rank <= |s|
    ensures HasRank(s, rank, x)
  {
    var bound := Largest(s);
    x := 0;
    CountAllAtMost(s, bound);
    while CountAtMost(s, x) < rank
      invariant x <= bound && CountLess(s, x) < rank
      decreases bound - x
    {
      LessIsAtMost(s, x);
      x := x + 1;
    }
    RankIsSample(s, x);
  }

  function Largest(s: seq<nat>): (m: nat)
    ensures forall i :: 0 <= i < |s| ==> s[i] <= m
    decreases |s|
  {
    if s == [] then 0
    else
      var m := Largest(s[..|s| - 1]);
      assert forall i :: 0 <= i < |s| - 1 ==> s[i] == s[..|s| - 1][i];
      if s[|s| - 1] > m then s[|s| - 1] else m
  }

  lemma {:induction false} CountAllAtMost(s: seq<nat>, bound: nat)
    requires forall i :: 0 <= i < |s| ==> s[i] <= bound
    ensures CountAtMost(s, bound) == |s| && CountLess(s, 0) == 0
    decreases |s|
  {
    if s != [] {
      CountAllAtMost(s[..|s| - 1], bound);
    }
  }

  lemma {:induction false} LessIsAtMost(s: seq<nat>, x: nat)
    ensures CountLess(s, x + 1) == CountAtMost(s, x)
    decreases |s|
  {
    if s != [] {
      LessIsAtMost(s[..|s| - 1], x);
    }
  }

  lemma {:induction false} RankIsSample(s: seq<nat>, x: nat)
    requires CountLess(s, x) < CountAtMost(s, x)
    ensures x in s
    decreases |s|
  {
    if s[|s| - 1] != x {
      RankIsSample(s[..|s| - 1], x);
    }
  }
}
