/** The latencies a benchmark keeps and its percentiles (benches/spoe/main.rs). */
module Samples {
  import opened Bits
  import opened Workload

  const RESERVOIR := 100_000

  // ----- the reservoir of one worker -----

  /** Random numbers drawn for the first `n` latencies: none until the reservoir is full, then one for each. */
  function Draws(n: nat): nat {
    if n <= RESERVOIR then 0 else n - RESERVOIR
  }

  /** What is kept of the latencies of a run that begins with this state of the generator. */
  function Reservoir(latencies: seq<nat>, start: u64): (kept: seq<nat>)
    ensures |kept| == if |latencies| < RESERVOIR then |latencies| else RESERVOIR
  {
    if latencies == [] then []
    else
      var n := |latencies| - 1;
      Kept(Reservoir(latencies[..n], start), latencies[n], n + 1, StateAfter(start, Draws(n + 1)))
  }

  /** The samples after the latency number `count`; `state` is that of the generator afterwards. */
  function Kept(samples: seq<nat>, latency: nat, count: nat, state: u64): seq<nat>
    requires 0 < count
  {
    if |samples| < RESERVOIR then samples + [latency]
    else
      var index := Mix(state) % count;
      if index < |samples| then samples[index := latency] else samples
  }

  lemma ReservoirStep(latencies: seq<nat>, latency: nat, start: u64)
    ensures
      var n := |latencies| + 1;
      Reservoir(latencies + [latency], start) ==
      Kept(Reservoir(latencies, start), latency, n, StateAfter(start, Draws(n)))
  {
    hide Kept;
    assert (latencies + [latency])[..|latencies|] == latencies;
  }

  /** Nothing is kept twice, and nothing is kept that was not there. */
  lemma {:induction false} ReservoirPart(latencies: seq<nat>, start: u64)
    ensures multiset(Reservoir(latencies, start)) <= multiset(latencies)
  {
    if latencies != [] {
      var n := |latencies| - 1;
      ReservoirPart(latencies[..n], start);
      assert latencies == latencies[..n] + [latencies[n]];
      hide Mix, StateAfter;
    }
  }

  /** Latency number `k`, counted from zero, goes to place `i`: the first ones in order, later ones by lot. */
  predicate Takes(start: u64, k: nat, i: nat) {
    if k < RESERVOIR then k == i else Draw(start, k + 1 - RESERVOIR) % (k + 1) == i
  }

  /** Each place of the reservoir holds the last latency that went there. */
  lemma {:induction false} PlaceHolds(latencies: seq<nat>, start: u64, k: nat, i: nat)
    requires k < |latencies| && i < |Reservoir(latencies, start)| && Takes(start, k, i)
    requires forall j :: k < j < |latencies| ==> !Takes(start, j, i)
    ensures Reservoir(latencies, start)[i] == latencies[k]
  {
    hide Mix, StateAfter;
    var n := |latencies| - 1;
    if k < n {
      assert !Takes(start, n, i);
      if i < |Reservoir(latencies[..n], start)| {
        PlaceHolds(latencies[..n], start, k, i);
      }
    }
  }

  // ----- weights -----

  /** A latency and the number of requests it stands for. */
  datatype Sample = Sample(latency: nat, weight: real)

  function Weigh(latencies: seq<nat>, weight: real): (samples: seq<Sample>)
    ensures |samples| == |latencies|
    ensures forall k :: 0 <= k < |samples| ==> samples[k] == Sample(latencies[k], weight)
  {
    seq(|latencies|, k requires 0 <= k < |latencies| => Sample(latencies[k], weight))
  }

  function TotalWeight(samples: seq<Sample>): real {
    if samples == [] then 0.0 else TotalWeight(samples[..|samples| - 1]) + samples[|samples| - 1].weight
  }

  function LatenciesOf(samples: seq<Sample>): (latencies: seq<nat>)
    ensures |latencies| == |samples| && forall k :: 0 <= k < |samples| ==> latencies[k] == samples[k].latency
  {
    seq(|samples|, k requires 0 <= k < |samples| => samples[k].latency)
  }

  lemma {:induction false} TotalAppend(a: seq<Sample>, b: seq<Sample>)
    ensures TotalWeight(a + b) == TotalWeight(a) + TotalWeight(b)
  {
    if b == [] {
      assert a + b == a;
    } else {
      var n := |b| - 1;
      assert (a + b)[..|a| + n] == a + b[..n];
      TotalAppend(a, b[..n]);
    }
  }

  /** Samples of one weight. */
  lemma {:induction false} TotalOfEqual(latencies: seq<nat>, weight: real)
    ensures TotalWeight(Weigh(latencies, weight)) == |latencies| as real * weight
  {
    if latencies != [] {
      var n := |latencies| - 1;
      assert Weigh(latencies, weight)[..n] == Weigh(latencies[..n], weight);
      TotalOfEqual(latencies[..n], weight);
      assert (n as real + 1.0) * weight == n as real * weight + weight;
    }
  }

  /** The samples kept of `count` requests stand for all of them. */
  lemma SharedWeight(latencies: seq<nat>, count: nat)
    requires latencies != []
    ensures TotalWeight(Weigh(latencies, count as real / |latencies| as real)) == count as real
  {
    TotalOfEqual(latencies, count as real / |latencies| as real);
  }

  // ----- percentiles -----

  predicate Positive(samples: seq<Sample>) {
    forall s <- samples :: 0.0 < s.weight
  }

  predicate Ordered(samples: seq<Sample>) {
    forall i, j :: 0 <= i < j < |samples| ==> samples[i].latency <= samples[j].latency
  }

  /** Weight of the first `n` samples. */
  function Cumulative(samples: seq<Sample>, n: nat): real
    requires n <= |samples|
  {
    TotalWeight(samples[..n])
  }

  /** Sample `k` is the first one at which the weights so far reach the target. */
  predicate FirstReaching(sorted: seq<Sample>, target: real, k: nat) {
    && k < |sorted|
    && Cumulative(sorted, k + 1) >= target
    && forall n :: 0 < n <= k ==> Cumulative(sorted, n) < target
  }

  function Target(samples: seq<Sample>, fraction: real): real {
    fraction * TotalWeight(samples)
  }

  /** `percentile`; the last sample if the target is out of reach, and zero without samples. */
  method Percentile(sorted: seq<Sample>, fraction: real) returns (latency: nat)
    ensures
      || (exists k: nat :: FirstReaching(sorted, Target(sorted, fraction), k) && latency == sorted[k].latency)
      || (&& (forall n :: 0 < n <= |sorted| ==> Cumulative(sorted, n) < Target(sorted, fraction))
          && latency == if sorted == [] then 0 else sorted[|sorted| - 1].latency)
  {
    var total := 0.0;
    CumulativeStep(sorted);
    hide Cumulative;
    for i := 0 to |sorted|
      invariant total == Cumulative(sorted, i)
    {
      total := total + sorted[i].weight;
    }
    var target := fraction * total;
    assert target == Target(sorted, fraction);
    hide Target;
    var cumulative := 0.0;
    for k := 0 to |sorted|
      invariant cumulative == Cumulative(sorted, k)
      invariant forall n :: 0 < n <= k ==> Cumulative(sorted, n) < target
    {
      cumulative := cumulative + sorted[k].weight;
      if cumulative >= target {
        assert FirstReaching(sorted, target, k);
        return sorted[k].latency;
      }
    }
    return if sorted == [] then 0 else sorted[|sorted| - 1].latency;
  }

  lemma CumulativeStep(samples: seq<Sample>)
    ensures Cumulative(samples, 0) == 0.0 && Cumulative(samples, |samples|) == TotalWeight(samples)
    ensures
      forall k :: 0 <= k < |samples| ==> Cumulative(samples, k + 1) == Cumulative(samples, k) + samples[k].weight
  {
    assert samples[..|samples|] == samples;
    forall k | 0 <= k < |samples|
      ensures Cumulative(samples, k + 1) == Cumulative(samples, k) + samples[k].weight
    {
      assert samples[..k + 1][..k] == samples[..k];
    }
  }

  /** Weight of the samples of at most this latency. */
  function WeightUpTo(samples: seq<Sample>, latency: int): real {
    if samples == [] then 0.0
    else
      var last := samples[|samples| - 1];
      WeightUpTo(samples[..|samples| - 1], latency) + if last.latency <= latency then last.weight else 0.0
  }

  lemma {:induction false} AtLeast(sorted: seq<Sample>, latency: int, n: nat)
    requires n <= |sorted| && Positive(sorted)
    requires forall i :: 0 <= i < n ==> sorted[i].latency <= latency
    ensures WeightUpTo(sorted, latency) >= TotalWeight(sorted[..n])
  {
    if sorted != [] {
      var m := |sorted| - 1;
      assert sorted[m] in sorted && forall s <- sorted[..m] :: s in sorted;
      if n <= m {
        assert sorted[..m][..n] == sorted[..n];
        AtLeast(sorted[..m], latency, n);
      } else {
        assert sorted[..n] == sorted && sorted[..m][..m] == sorted[..m];
        AtLeast(sorted[..m], latency, m);
      }
    }
  }

  /**
   * What the percentile means: samples up to it weigh at least the fraction, and those below it less. Some
   * sample reaches the target for every fraction up to one.
   */
  lemma PercentileMeaning(sorted: seq<Sample>, fraction: real)
    requires sorted != [] && Ordered(sorted) && Positive(sorted) && 0.0 < fraction <= 1.0
    ensures Cumulative(sorted, |sorted|) >= Target(sorted, fraction)
    ensures
      forall k: nat :: FirstReaching(sorted, Target(sorted, fraction), k) ==>
        var latency := sorted[k].latency;
        WeightUpTo(sorted, latency - 1) < Target(sorted, fraction) <= WeightUpTo(sorted, latency)
  {
    hide Target, TotalWeight, WeightUpTo, Positive, Ordered, Cumulative;
    TargetBounds(sorted, fraction);
    CumulativeStep(sorted);
    forall k: nat | FirstReaching(sorted, Target(sorted, fraction), k)
      ensures
        var latency := sorted[k].latency;
        WeightUpTo(sorted, latency - 1) < Target(sorted, fraction) <= WeightUpTo(sorted, latency)
    {
      Around(sorted, k);
      assert k > 0 ==> Cumulative(sorted, k) < Target(sorted, fraction);
    }
  }

  lemma TargetBounds(samples: seq<Sample>, fraction: real)
    requires samples != [] && Positive(samples) && 0.0 < fraction <= 1.0
    ensures 0.0 < Target(samples, fraction) <= TotalWeight(samples)
  {
    TotalPositive(samples);
    var total := TotalWeight(samples);
    assert 0.0 < fraction * total <= total;
    hide TotalWeight;
  }

  /** What weighs in front of a sample, and up to it. */
  lemma Around(sorted: seq<Sample>, k: nat)
    requires k < |sorted| && Ordered(sorted) && Positive(sorted)
    ensures WeightUpTo(sorted, sorted[k].latency) >= Cumulative(sorted, k + 1)
    ensures WeightUpTo(sorted, sorted[k].latency - 1) <= Cumulative(sorted, k)
  {
    AtLeast(sorted, sorted[k].latency, k + 1);
    AtMost(sorted, sorted[k].latency - 1, k);
  }

  lemma {:induction false} TotalPositive(samples: seq<Sample>)
    requires Positive(samples)
    ensures TotalWeight(samples) >= 0.0 && (samples != [] ==> TotalWeight(samples) > 0.0)
  {
    if samples != [] {
      var n := |samples| - 1;
      assert samples[n] in samples && forall s <- samples[..n] :: s in samples;
      TotalPositive(samples[..n]);
    }
  }

  lemma {:induction false} AtMost(sorted: seq<Sample>, latency: int, n: nat)
    requires n <= |sorted| && Positive(sorted)
    requires forall i :: n <= i < |sorted| ==> latency < sorted[i].latency
    ensures WeightUpTo(sorted, latency) <= TotalWeight(sorted[..n])
  {
    if sorted != [] {
      var m := |sorted| - 1;
      assert sorted[m] in sorted && forall s <- sorted[..m] :: s in sorted;
      if n <= m {
        assert sorted[..m][..n] == sorted[..n];
        AtMost(sorted[..m], latency, n);
      } else {
        assert sorted[..n] == sorted && sorted[..m][..m] == sorted[..m];
        AtMost(sorted[..m], latency, m);
      }
    }
  }
}
