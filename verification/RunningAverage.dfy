/** The running average of durations, rounded down at every sample. */
module RunningAverage {
  import opened Machine

  /** The average after the n-th sample, with the arithmetic of int64. */
  function Next(average: int64, n: int64, sample: int64): int64
    requires n > 0
  {
    Signed(Truncated(Signed(Signed(average * (n - 1)) + sample), n))
  }

  /** Go's division, which rounds towards zero. */
  function Truncated(a: int, b: int): int
    requires b > 0
  {
    if a >= 0 then DivMod(a, b).0 else 0 - DivMod(-a, b).0
  }

  function Average(samples: seq<int64>): int64
    requires |samples| < I63
  {
    if samples == [] then 0
    else Next(Average(samples[..|samples| - 1]), |samples|, samples[|samples| - 1])
  }

  function Sum(samples: seq<int64>): int {
    if samples == [] then 0 else Sum(samples[..|samples| - 1]) + samples[|samples| - 1]
  }

  /** No sample is negative, and all together fit into int64. */
  predicate Fit(samples: seq<int64>) {
    |samples| < I63 && Sum(samples) < I63 && forall i | 0 <= i < |samples| :: samples[i] >= 0
  }

  lemma {:induction false} SumGrows(samples: seq<int64>)
    requires forall i | 0 <= i < |samples| :: samples[i] >= 0
    ensures Sum(samples) >= 0
    ensures samples != [] ==> Sum(samples[..|samples| - 1]) <= Sum(samples)
  {
    if samples != [] {
      SumGrows(samples[..|samples| - 1]);
    }
  }

  /** One sample, when nothing overflows: the rest of the division is all that is lost. */
  lemma NextLosesRest(average: int64, n: int64, sample: int64)
    requires average >= 0 && sample >= 0 && n > 0 && average * (n - 1) + sample < I63
    ensures var next := Next(average, n, sample);
      0 <= next && next * n <= average * (n - 1) + sample <= next * n + n - 1
  {
    ProductIsNat(average, n - 1);
    NextFits(average * (n - 1), sample, n);
  }

  lemma ProductIsNat(a: nat, b: nat)
    ensures a * b >= 0
  {
  }

  lemma NextFits(product: nat, sample: nat, n: int64)
    requires n > 0 && product + sample < I63
    ensures var next := Signed(Truncated(Signed(Signed(product) + sample), n));
      0 <= next && next * n <= product + sample <= next * n + n - 1
  {
    assert Signed(Signed(product) + sample) == product + sample;
    DivModSums(product + sample, n);
  }

  /**
   The average times the count stays below the sum, and the loss is at most n(n-1)/2: one sample after another loses at
   most the number of those before it.
   */
  lemma {:induction false} AverageNearSum(samples: seq<int64>)
    requires Fit(samples)
    ensures var n, loss := |samples|, Sum(samples) - Average(samples) * |samples|;
      Average(samples) >= 0 && 0 <= loss && 2 * loss <= n * (n - 1)
  {
    var n := |samples|;
    if n > 0 {
      var front := samples[..n - 1];
      SumGrows(samples);
      AverageNearSum(front);
      NextLosesRest(Average(front), n, samples[n - 1]);
      Triangle(n);
      LossGrows(Sum(front), Average(front) * (n - 1), samples[n - 1], Average(samples) * n, (n - 1) * (n - 2), n);
    }
  }

  lemma LossGrows(sum: int, kept: int, sample: int, kept': int, triangle: int, n: int)
    requires 0 <= sum - kept && 2 * (sum - kept) <= triangle && kept' <= kept + sample <= kept' + n - 1
    ensures 0 <= sum + sample - kept' && 2 * (sum + sample - kept') <= triangle + 2 * (n - 1)
  {
  }

  lemma Triangle(n: int)
    ensures n * (n - 1) == (n - 1) * (n - 2) + 2 * (n - 1)
  {
  }

  /** The average lies between any bounds of the samples. */
  lemma {:induction false} AverageBetween(samples: seq<int64>, lo: int64, hi: int64)
    requires Fit(samples) && samples != []
    requires forall i | 0 <= i < |samples| :: lo <= samples[i] <= hi
    ensures lo <= Average(samples) <= hi
  {
    var n := |samples|;
    var front := samples[..n - 1];
    SumGrows(samples);
    AverageNearSum(front);
    NextLosesRest(Average(front), n, samples[n - 1]);
    if n > 1 {
      AverageBetween(front, lo, hi);
    } else {
      assert Average(front) * (n - 1) == 0;
    }
    BetweenMeans(if n > 1 then Average(front) else lo, n, samples[n - 1], Average(samples), lo, hi);
  }

  lemma BetweenMeans(average: int, n: int, sample: int, next: int, lo: int, hi: int)
    requires n > 0 && lo <= average <= hi && lo <= sample <= hi
    requires next * n <= average * (n - 1) + sample <= next * n + n - 1
    ensures lo <= next <= hi
  {
    Scaled(lo, average, n - 1);
    Scaled(average, hi, n - 1);
    assert next < lo ==> (next + 1) * n <= lo * n by {
      if next < lo { Scaled(next + 1, lo, n); }
    }
    assert next > hi ==> (hi + 1) * n <= next * n by {
      if next > hi { Scaled(hi + 1, next, n); }
    }
    Expand(next, n);
    Expand(hi, n);
    Expand(lo - 1, n);
  }

  lemma Scaled(a: int, b: int, n: nat)
    requires a <= b
    ensures a * n <= b * n
  {
  }

  lemma Expand(a: int, n: int)
    ensures (a + 1) * n == a * n + n
    ensures a * n == a * (n - 1) + a
  {
  }

  // ----- when a step is exact -----

  lemma SignedFallsShort(p: int)
    requires p >= I63
    ensures Signed(p) <= p - U64
  {
  }

  lemma SignedSum(a: int, b: int)
    ensures Signed(Signed(a) + b) == Signed(a + b)
  {
    var m := SignedIs(a);
    SignedShift(a + b, m);
  }

  lemma SignedIs(a: int) returns (m: int)
    ensures Signed(a) == a - m * U64
  {
    m := (a - Signed(a)) / 0x1_0000_0000_0000_0000;
  }

  lemma WrapIs(a: int) returns (m: int)
    ensures Wrap(a) == a - m * U64
  {
    m := (a - Wrap(a)) / 0x1_0000_0000_0000_0000;
  }

  lemma SignedFromWrap(a: int)
    ensures Signed(a) == if Wrap(a) < I63 then Wrap(a) else Wrap(a) - U64
  {
  }

  lemma SignedShift(a: int, m: int)
    ensures Signed(a - m * U64) == Signed(a)
  {
    var k := WrapIs(a);
    var k' := WrapIs(a - m * U64);
    assert Wrap(a - m * U64) - Wrap(a) == (k - m - k') * U64;
    assert k - m - k' == 0;
    SignedFromWrap(a);
    SignedFromWrap(a - m * U64);
  }

  /** Go's division loses less than the divisor, on either side of zero. */
  lemma TruncatedLosesRest(a: int, n: int64)
    requires n > 0 && -I63 <= a < I63
    ensures -I63 <= Truncated(a, n) < I63 && Truncated(a, n) * n <= a + n - 1
  {
    DivModSums(if a >= 0 then a else -a, n);
    var q := DivMod(if a >= 0 then a else -a, n).0;
    assert (0 - q) * n == 0 - q * n;
  }

  /**
   A step loses only the rest of its division exactly when the new total fits into int64: what the caller has to see to
   before it records a sample.
   */
  lemma StepExactIff(average: int64, n: int64, sample: int64)
    requires average >= 0 && sample >= 0 && n > 0
    ensures var total, next := average * (n - 1) + sample, Next(average, n, sample);
      0 <= total - next * n <= n - 1 <==> total < I63
  {
    var product := average * (n - 1);
    if product + sample < I63 {
      NextLosesRest(average, n, sample);
    } else {
      StepFallsShort(product, sample, n);
    }
  }

  lemma StepFallsShort(product: int, sample: int, n: int64)
    requires n > 0 && product + sample >= I63
    ensures var next := Signed(Truncated(Signed(Signed(product) + sample), n));
      product + sample - next * n > n - 1
  {
    SignedSum(product, sample);
    SignedFallsShort(product + sample);
    TruncatedLosesRest(Signed(product + sample), n);
  }

  /** Samples that do not fit together are averaged wrongly: here two, to a negative number. */
  lemma OverflowBreaksAverage()
    ensures Average([I63 - 1, 1]) < 0
  {
    assert [I63 - 1, 1][..1] == [I63 - 1];
    NextLosesRest(0, 1, I63 - 1);
    assert Average([I63 - 1]) == I63 - 1;
  }

  class WebhookStatistics {
    var totalSent: nat
    var successCount: nat
    var failureCount: nat
    var averageLatency: int64
    ghost var latencies: seq<int64>

    constructor ()
      ensures Valid() && latencies == []
    {
      totalSent, successCount, failureCount, averageLatency, latencies := 0, 0, 0, 0, [];
    }

    ghost predicate Valid()
      reads this
    {
      && totalSent == successCount + failureCount && successCount == |latencies| < I63
      && averageLatency == Average(latencies)
    }

    method RecordSuccess(latency: int64)
      requires Valid() && successCount + 1 < I63
      modifies this
      ensures Valid() && latencies == old(latencies) + [latency] && failureCount == old(failureCount)
    {
      totalSent, successCount := totalSent + 1, successCount + 1;
      averageLatency := Next(averageLatency, successCount, latency);
      latencies := latencies + [latency];
    }

    method RecordFailure()
      requires Valid()
      modifies this
      ensures Valid() && latencies == old(latencies) && failureCount == old(failureCount) + 1
    {
      totalSent, failureCount := totalSent + 1, failureCount + 1;
    }
  }

  /** The same recurrence in the reorg processor, which counts failed events as samples too. */
  class ProcessorStatistics {
    var totalProcessed: nat
    var totalFailed: nat
    var averageProcessingTime: int64
    ghost var durations: seq<int64>

    constructor ()
      ensures Valid() && durations == []
    {
      totalProcessed, totalFailed, averageProcessingTime, durations := 0, 0, 0, [];
    }

    ghost predicate Valid()
      reads this
    {
      totalProcessed + totalFailed == |durations| < I63 && averageProcessingTime == Average(durations)
    }

    method UpdateStatistics(duration: int64, success: bool)
      requires Valid() && totalProcessed + totalFailed + 1 < I63
      modifies this
      ensures Valid() && durations == old(durations) + [duration]
      ensures totalProcessed == old(totalProcessed) + if success then 1 else 0
    {
      if success {
        totalProcessed := totalProcessed + 1;
      } else {
        totalFailed := totalFailed + 1;
      }
      averageProcessingTime := Next(averageProcessingTime, totalProcessed + totalFailed, duration);
      durations := durations + [duration];
    }
  }
}
