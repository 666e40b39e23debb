/** The latency histogram: recording samples and walking the bins for a percentile. */
module LatencyTrackers {
  import opened Bits
  import opened Histogram

  /** Number of values of a 64-bit unsigned word. */
  const WORD64: nat := 0x1_0000_0000_0000_0000

  type Nanoseconds = v: nat | v < 0x1_0000_0000_0000_0000

  function Sum(s: seq<nat>): nat
    decreases |s|
  {
    if s == [] then 0 else Sum(s[..|s| - 1]) + s[|s| - 1]
  }

  predicate IsMax(s: seq<nat>, m: nat) {
    (forall i :: 0 <= i < |s| ==> s[i] <= m) && (s != [] ==> m in s)
  }

  predicate IsMin(s: seq<nat>, m: nat) {
    (forall i :: 0 <= i < |s| ==> m <= s[i]) && (s != [] ==> m in s)
  }

  lemma ExtremesSnoc(s: seq<nat>, v: nat, max: nat, min: nat)
    requires IsMax(s, max) && IsMin(s, min) && (s == [] ==> max == 0 && v <= min)
    ensures IsMax(s + [v], if v > max then v else max) && (IsMin(s + [v], if v < min then v else min) || s == [])
  {
  }

  // ---- From a percentage to a rank ----

  /** The percentage of the count, rounded to the nearest integer. */
  function Rank(pct: real, count: nat): nat
    requires pct >= 0.0
  {
    ShareGrows(0.0, pct, count);
    (pct / 100.0 * (count as real) + 0.5).Floor
  }

  lemma ShareGrows(pct: real, pct': real, count: nat)
    requires 0.0 <= pct <= pct'
    ensures 0.0 <= pct / 100.0 * (count as real) <= pct' / 100.0 * (count as real)
  {
    ScaleGrows(0.0, pct / 100.0, count as real);
    ScaleGrows(pct / 100.0, pct' / 100.0, count as real);
  }

  lemma ScaleGrows(a: real, b: real, c: real)
    requires a <= b && c >= 0.0
    ensures a * c <= b * c
  {
  }

  /** Every percentage up to 100 has a rank within the samples, never more than half a sample away from the
      exact share, and the whole range from no sample to the last one is reached. */
  lemma RankNearest(pct: real, count: nat)
    requires 0.0 <= pct <= 100.0
    ensures Rank(pct, count) <= count && Rank(0.0, count) == 0 && Rank(100.0, count) == count
    ensures var share := pct / 100.0 * (count as real);
            Rank(pct, count) as real - 0.5 <= share < Rank(pct, count) as real + 0.5
  {
    ShareGrows(pct, 100.0, count);
  }

  lemma RankGrows(pct: real, pct': real, count: nat)
    requires 0.0 <= pct <= pct'
    ensures Rank(pct, count) <= Rank(pct', count)
  {
    ShareGrows(pct, pct', count);
    var share, share' := pct / 100.0 * (count as real), pct' / 100.0 * (count as real);
    assert (share + 0.5).Floor <= (share' + 0.5).Floor;
  }

  /** A larger percentage never reports less. */
  lemma PercentagesMonotone(s: seq<nat>, pct: real, pct': real, i: nat, i': nat)
    requires 0.0 <= pct <= pct' && Reaches(s, Rank(pct, |s|), i) && Reaches(s, Rank(pct', |s|), i')
    ensures BucketUpper(i) <= BucketUpper(i')
  {
    RankGrows(pct, pct', |s|);
    PercentileMonotone(s, Rank(pct, |s|), Rank(pct', |s|), i, i');
  }

  class LatencyTracker {
    const bins: array<nat>
    var count: nat
    var sum: Nanoseconds
    var max: Nanoseconds
    var min: Nanoseconds
    ghost var samples: seq<nat>   // everything recorded since the last reset

    ghost predicate Valid()
      reads this, bins
    {
      && bins.Length == NUM_BINS && count == |samples|
      && (forall i :: 0 <= i < NUM_BINS ==> bins[i] == CountBin(samples, i))
      && sum == Sum(samples) % WORD64
      && IsMax(samples, max) && IsMin(samples, min)
      && (samples == [] ==> max == 0 && min == WORD64 - 1)
    }

    constructor ()
      ensures Valid() && fresh(bins) && samples == []
    {
      bins := new nat[NUM_BINS](_ => 0);
      count, sum, max, min := 0, 0, 0, WORD64 - 1;
      samples := [];
    }

    method Record(ns: Nanoseconds)
      requires Valid()
      modifies this, bins
      ensures Valid() && samples == old(samples) + [ns]
    {
      var idx := BucketIndex(ns);
      if idx >= NUM_BINS {
        idx := NUM_BINS - 1;
      }
      ghost var s := samples;
      CountInto(ns, idx);
      sum := (sum + ns) % WORD64;
      SumSnoc(s, ns, sum);
      ExtremesSnoc(s, ns, max, min);
      assert s == [] ==> (s + [ns])[0] == ns;
      if ns > max {
        max := ns;
      }
      if ns < min {
        min := ns;
      }
    }

    /** Bin and count updates of `Record`. */
    method CountInto(ns: nat, idx: nat)
      requires bins.Length == NUM_BINS && count == |samples| && idx == Bin(ns)
      requires forall i :: 0 <= i < NUM_BINS ==> bins[i] == CountBin(samples, i)
      modifies `count, `samples, bins
      ensures samples == old(samples) + [ns] && count == |samples|
      ensures forall i :: 0 <= i < NUM_BINS ==> bins[i] == CountBin(samples, i)
    {
      ghost var s := samples;
      bins[idx] := bins[idx] + 1;
      count := count + 1;
      samples := samples + [ns];
      assert samples[..|s|] == s;
    }

    lemma SumSnoc(s: seq<nat>, ns: nat, total: nat)
      requires total == (Sum(s) % WORD64 + ns) % WORD64
      ensures total == Sum(s + [ns]) % WORD64
    {
    }

    /** The value reported for a percentage: that of the sample whose rank is nearest to it. */
    method Percentile(pct: real) returns (r: nat)
      requires Valid() && pct >= 0.0
      ensures count == 0 || Rank(pct, count) == 0 ==> r == 0
      ensures count > 0 && Rank(pct, count) > count ==> r == max
      ensures 1 <= Rank(pct, count) <= count ==>
                exists i: nat :: i < NUM_BINS && Reaches(samples, Rank(pct, count), i) && r == BucketUpper(i)
      ensures Reports(samples, Rank(pct, count), r)
    {
      r := Walk(Rank(pct, count));
    }

    /** The bucket walk for one rank. For a rank some sample holds, what it returns is at least that sample
        and at most a sixty-fourth above it. */
    method Walk(target: nat) returns (r: nat)
      requires Valid()
      ensures count == 0 || target == 0 ==> r == 0
      ensures count > 0 && target > count ==> r == max
      ensures 1 <= target <= count ==>
                exists i: nat :: i < NUM_BINS && Reaches(samples, target, i) && r == BucketUpper(i)
      ensures Reports(samples, target, r)
    {
      if count == 0 {
        return 0;
      }
      var cumulative := 0;
      CountSteps(samples, 0);
      for i := 0 to NUM_BINS
        invariant cumulative == CountBefore(samples, i)
        invariant i > 0 ==> cumulative < target
      {
        CountSteps(samples, i);
        cumulative := cumulative + bins[i];
        if cumulative >= target {
          WalkStops(samples, target, i);
          return BucketUpper(i);
        }
      }
      NoRankAbove(samples, target);
      r := max;
    }

    method Reset()
      requires bins.Length == NUM_BINS
      modifies this, bins
      ensures Valid() && samples == []
    {
      forall i | 0 <= i < bins.Length {
        bins[i] := 0;
      }
      count, sum, max, min := 0, 0, 0, WORD64 - 1;
      samples := [];
    }
  }

  /** `r` stands for every sample of that rank within the promised error. */
  ghost predicate Reports(s: seq<nat>, rank: nat, r: nat) {
    forall x: nat :: HasRank(s, rank, x) ==>
      if x < Pow2(MAX_BITS) then x <= r && 64 * (r - x) <= x else r == Pow2(MAX_BITS) - 1
  }

  /** Where the walk stops, it stops for a reason. */
  lemma WalkStops(s: seq<nat>, target: nat, i: nat)
    requires i < NUM_BINS && (i == 0 || CountBefore(s, i) < target) && target <= CountBefore(s, i + 1)
    ensures target == 0 ==> BucketUpper(i) == 0
    ensures target <= |s| && Reports(s, target, BucketUpper(i))
    ensures target > 0 ==> Reaches(s, target, i)
  {
    CountSteps(s, 0);
    CountBeforeGrows(s, i + 1, NUM_BINS);
    forall x: nat | HasRank(s, target, x)
      ensures if x < Pow2(MAX_BITS) then x <= BucketUpper(i) && 64 * (BucketUpper(i) - x) <= x
              else BucketUpper(i) == Pow2(MAX_BITS) - 1
    {
      PercentileError(s, target, i, x);
    }
  }

  /** No sample has a rank beyond the number of samples. */
  lemma NoRankAbove(s: seq<nat>, rank: nat)
    requires rank > |s|
    ensures forall x: nat :: !HasRank(s, rank, x)
  {
    forall x: nat ensures CountAtMost(s, x) <= |s| {
      CountAtMostBound(s, x);
    }
  }

  lemma {:induction false} CountAtMostBound(s: seq<nat>, x: nat)
    ensures CountAtMost(s, x) <= |s|
    decreases |s|
  {
    if s != [] {
      CountAtMostBound(s[..|s| - 1], x);
    }
  }
}
