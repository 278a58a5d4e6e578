/** The bucket boundaries of the transaction latency histograms, computed once from a
    configured range and bucket count (`build_histogram_buckets`). */
module Buckets {
  /** `buckets + 1` boundaries from `start`, spaced by `(end - start) / buckets` (integer
      division). The source divides by `buckets` and subtracts `start` from `end` on
      unsigned integers, so a zero bucket count or an `end` below `start` makes it fail. */
  function BuildHistogramBuckets(start: nat, end: nat, buckets: nat): seq<nat>
    requires buckets > 0 && start <= end
  {
    var step: nat := (end - start) / buckets;
    seq(buckets + 1, (i: int) requires 0 <= i <= buckets => Boundary(start, i, step))
  }

  /** The boundary `i` steps above `start`. */
  function Boundary(start: nat, i: nat, step: nat): nat
  {
    start + i * step
  }

  /** There are `buckets + 1` boundaries; the first is `start`, consecutive ones differ by the
      same step, they never decrease, and the last falls short of `end` by the remainder of
      the division, so it is at most `end` and equals `end` exactly when `buckets` divides
      the range. */
  lemma BucketsSpanRange(start: nat, end: nat, buckets: nat)
    requires buckets > 0 && start <= end
    ensures var r := BuildHistogramBuckets(start, end, buckets);
            && |r| == buckets + 1
            && r[0] == start
            && (forall i | 0 <= i < buckets :: r[i + 1] - r[i] == (end - start) / buckets)
            && (forall i, j | 0 <= i <= j <= buckets :: r[i] <= r[j])
            && r[buckets] == end - (end - start) % buckets
            && r[buckets] <= end
            && (r[buckets] == end <==> (end - start) % buckets == 0)
  {
    var r := BuildHistogramBuckets(start, end, buckets);
    var step := (end - start) / buckets;
    forall i, j | 0 <= i <= j <= buckets
      ensures r[i] <= r[j]
    {
      MulMonotone(i, j, step);
    }
    assert buckets * step + (end - start) % buckets == end - start;
  }

  /** Multiplying by a natural number preserves order. */
  lemma MulMonotone(i: nat, j: nat, step: nat)
    requires i <= j
    ensures i * step <= j * step
  {
    assert j * step == i * step + (j - i) * step;
  }
}
