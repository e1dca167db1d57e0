/**
 * The bounded latency histogram: 100 microsecond bins through 20 seconds, and percentiles read
 * off it that agree with sorting the samples.
 */
module Histograms {
  const BIN_MICROS := 100
  const BINS := 200_001

  /** The bin of a sample; everything past the last bin is kept in it. */
  function Bin(micros: nat): nat {
    if micros / BIN_MICROS >= BINS then BINS - 1 else micros / BIN_MICROS
  }

  /** How many samples fall in bins below `bin`. */
  function Below(samples: seq<nat>, bin: nat): nat {
    if samples == [] then 0 else Below(samples[1..], bin) + if Bin(samples[0]) < bin then 1 else 0
  }

  function InBin(samples: seq<nat>, bin: nat): int { Below(samples, bin + 1) - Below(samples, bin) }

  predicate Sorted(s: seq<nat>) { forall i, j :: 0 <= i <= j < |s| ==> s[i] <= s[j] }

  predicate Sorts(sorted: seq<nat>, samples: seq<nat>) { Sorted(sorted) && multiset(sorted) == multiset(samples) }

  /** The nearest rank of a percentile among `count` samples, counted from one. */
  function Rank(count: nat, percentile: nat): nat { (count * percentile + 99) / 100 }

  lemma {:induction false} BelowBounds(samples: seq<nat>, bin: nat)
    ensures Below(samples, bin) <= Below(samples, bin + 1) <= |samples|
    ensures Below(samples, 0) == 0 && Below(samples, BINS) == |samples|
  {
    if samples != [] {
      BelowBounds(samples[1..], bin);
    }
  }

  lemma {:induction false} BelowAppend(samples: seq<nat>, x: nat, bin: nat)
    ensures Below(samples + [x], bin) == Below(samples, bin) + if Bin(x) < bin then 1 else 0
  {
    if samples != [] {
      assert (samples + [x])[1..] == samples[1..] + [x];
      BelowAppend(samples[1..], x, bin);
    }
  }

  lemma {:induction false} BelowConcat(a: seq<nat>, b: seq<nat>, bin: nat)
    ensures Below(a + b, bin) == Below(a, bin) + Below(b, bin)
  {
    if a == [] {
      assert a + b == b;
    } else {
      assert (a + b)[1..] == a[1..] + b;
      BelowConcat(a[1..], b, bin);
    }
  }

  function Without(s: seq<nat>, k: nat): seq<nat>
    requires k < |s|
  {
    s[..k] + s[k + 1..]
  }

  lemma {:induction false} WithoutOne(s: seq<nat>, k: nat, bin: nat)
    requires k < |s|
    ensures multiset(s) == multiset(Without(s, k)) + multiset{s[k]}
    ensures Below(s, bin) == Below(Without(s, k), bin) + if Bin(s[k]) < bin then 1 else 0
  {
    hide Bin;
    assert s == s[..k] + ([s[k]] + s[k + 1..]);
    BelowConcat(s[..k], s[k + 1..], bin);
    BelowConcat(s[..k], [s[k]] + s[k + 1..], bin);
    BelowConcat([s[k]], s[k + 1..], bin);
    assert Below([s[k]], bin) == if Bin(s[k]) < bin then 1 else 0;
  }

  /** Counting does not depend on the order of the samples. */
  lemma {:induction false} BelowPermuted(a: seq<nat>, b: seq<nat>, bin: nat)
    requires multiset(a) == multiset(b)
    ensures Below(a, bin) == Below(b, bin)
    decreases |a|
  {
    if a == [] {
      assert |multiset(b)| == 0;
    } else {
      assert a[0] in multiset(b);
      var k :| 0 <= k < |b| && b[k] == a[0];
      hide Below, Bin, Without;
      WithoutOne(a, 0, bin);
      WithoutOne(b, k, bin);
      RemoveSame(Without(a, 0), Without(b, k), a[0]);
      WithoutShorter(a, 0);
      BelowPermuted(Without(a, 0), Without(b, k), bin);
    }
  }

  lemma {:induction false} WithoutShorter(s: seq<nat>, k: nat)
    requires k < |s|
    ensures |Without(s, k)| == |s| - 1
  {
  }

  lemma {:induction false} RemoveSame(a: seq<nat>, b: seq<nat>, x: nat)
    requires multiset(a) + multiset{x} == multiset(b) + multiset{x}
    ensures multiset(a) == multiset(b)
  {
    assert multiset(a) == (multiset(a) + multiset{x}) - multiset{x};
    assert multiset(b) == (multiset(b) + multiset{x}) - multiset{x};
  }

  lemma {:induction false} NoneBelow(s: seq<nat>, bin: nat)
    requires forall i :: 0 <= i < |s| ==> Bin(s[i]) >= bin
    ensures Below(s, bin) == 0
  {
    if s != [] {
      NoneBelow(s[1..], bin);
    }
  }

  lemma {:induction false} BinMonotone(x: nat, y: nat)
    requires x <= y
    ensures Bin(x) <= Bin(y)
  {
  }

  /** In a sorted list the samples below a bin come first. */
  lemma {:induction false} BelowIsPrefix(s: seq<nat>, bin: nat, k: nat)
    requires Sorted(s) && k < |s|
    ensures Bin(s[k]) < bin <==> k < Below(s, bin)
    decreases |s|
  {
    hide Bin;
    if Bin(s[0]) >= bin {
      forall i | 0 <= i < |s|
        ensures Bin(s[i]) >= bin
      {
        BinMonotone(s[0], s[i]);
      }
      NoneBelow(s, bin);
    } else if k > 0 {
      BelowIsPrefix(s[1..], bin, k - 1);
    }
  }

  /** The first bin at which the running count reaches the rank is the bin of the ranked sample. */
  lemma {:induction false} RankedBin(samples: seq<nat>, sorted: seq<nat>, rank: nat, bin: nat)
    requires Sorts(sorted, samples) && 1 <= rank <= |samples|
    requires Below(samples, bin) < rank <= Below(samples, bin + 1)
    ensures |sorted| == |samples| && bin == Bin(sorted[rank - 1])
  {
    assert |multiset(sorted)| == |multiset(samples)|;
    BelowPermuted(samples, sorted, bin);
    BelowPermuted(samples, sorted, bin + 1);
    BelowIsPrefix(sorted, bin, rank - 1);
    BelowIsPrefix(sorted, bin + 1, rank - 1);
  }

  lemma {:induction false} RankInRange(count: nat, percentile: nat)
    requires count > 0 && 1 <= percentile <= 100
    ensures 1 <= Rank(count, percentile) <= count
  {
  }

  class Histogram {
    const bins: array<nat>
    var count: nat
    var overflow: nat
    /** Everything recorded so far. */
    ghost var samples: seq<nat>

    ghost predicate Valid()
      reads this, bins
    {
      && bins.Length == BINS && count == |samples|
      && forall b :: 0 <= b < BINS ==> bins[b] == InBin(samples, b)
    }

    constructor ()
      ensures Valid() && fresh(bins) && samples == []
    {
      bins := new nat[BINS](_ => 0);
      count, overflow, samples := 0, 0, [];
    }

    method Record(micros: nat)
      requires Valid()
      modifies this, bins
      ensures Valid() && samples == old(samples) + [micros]
      ensures overflow == old(overflow) + if micros >= BINS * BIN_MICROS then 1 else 0
    {
      var bucket := micros / BIN_MICROS;
      overflow := overflow + if bucket >= BINS then 1 else 0;
      var b := if bucket < BINS - 1 then bucket else BINS - 1;
      bins[b] := bins[b] + 1;
      count := count + 1;
      forall k: nat
        ensures Below(samples + [micros], k) == Below(samples, k) + if Bin(micros) < k then 1 else 0
      {
        BelowAppend(samples, micros, k);
      }
      samples := samples + [micros];
    }

    /**
     * In microseconds: the bin of the nearest-rank element of the samples in any sorted order.
     * The scan always ends inside the loop.
     */
    method Percentile(percentile: nat) returns (micros: nat)
      requires Valid() && percentile <= 100
      ensures samples == [] ==> micros == 0
      ensures forall sorted: seq<nat> :: samples != [] && percentile > 0 && Sorts(sorted, samples) ==>
                |sorted| == |samples| && 1 <= Rank(|samples|, percentile) <= |samples|
                && micros == BIN_MICROS * Bin(sorted[Rank(|samples|, percentile) - 1])
    {
      if count == 0 {
        return 0;
      }
      var target := Rank(count, percentile);
      if percentile > 0 {
        RankInRange(count, percentile);
      }
      var seen := 0;
      BelowBounds(samples, 0);
      for index := 0 to BINS
        invariant seen == Below(samples, index)
        invariant index > 0 ==> seen < target
      {
        seen := seen + bins[index];
        BelowBounds(samples, index);
        if seen >= target {
          forall sorted: seq<nat> | percentile > 0 && Sorts(sorted, samples)
            ensures |sorted| == |samples| && index == Bin(sorted[target - 1])
          {
            RankedBin(samples, sorted, target, index);
          }
          return index * BIN_MICROS;
        }
      }
      assert false;
    }
  }
}
