/** ICS-29 fee accounting of the telemetry state, as bookkeeping: rewards to visible
    receivers are counted, and each one also goes into its own short-lived cache; the fee
    for a period is the sum of the caches whose entry has not yet expired. Instants are
    seconds of a monotonic clock, passed in explicitly. */
module Fees {
  import opened Wrappers
  import opened Expiry

  /** How long, in seconds, a recorded reward counts towards the period sum: seven days.
      It is both the time-to-live and the time-to-idle of every fee cache. */
  const FEE_LIFETIME: nat := 60 * 60 * 24 * 7

  /** The label set `chain`, `receiver`, `denom` of the fee metrics. */
  datatype FeeLabels = FeeLabels(chain: string, receiver: string, denom: string)

  /** One ephemeral cache of the ledger, holding one reward under its key. */
  type FeeCache = Cache<string, nat>

  /** The cache key of a reward: `fee_amount:<chain>/<receiver>/<denom>`. */
  function FeeKey(chainId: string, receiver: string, denom: string): string
  {
    "fee_amount:" + chainId + "/" + receiver + "/" + denom
  }

  /** What one cache contributes to the sum for `key` at `now`: its value if it holds a live
      entry for the key, nothing otherwise. */
  function Contribution(c: FeeCache, key: string, now: nat): nat
  {
    match Get(c, key, now, FEE_LIFETIME, FEE_LIFETIME)
    case Some(v) => v
    case None => 0
  }

  /** The period sum for `key` at `now`, over every cache of the ledger. */
  function PeriodSum(caches: seq<FeeCache>, key: string, now: nat): nat
    decreases |caches|
  {
    if caches == [] then 0
    else PeriodSum(caches[..|caches| - 1], key, now) + Contribution(caches[|caches| - 1], key, now)
  }

  /** The cache created for a reward of `amount` recorded at `now`. */
  function NewFeeCache(key: string, amount: nat, now: nat): FeeCache
  {
    Insert(map[], key, amount, now)
  }

  /** Every entry of every cache was written no later than `t` and read no earlier than
      it was written. */
  ghost predicate WrittenBy(caches: seq<FeeCache>, t: nat)
  {
    forall i, k | 0 <= i < |caches| && k in caches[i] ::
      caches[i][k].insertedAt <= t && caches[i][k].insertedAt <= caches[i][k].lastAccess
  }

  /** Appending a cache adds exactly what that cache contributes. */
  lemma PeriodSumAppend(caches: seq<FeeCache>, c: FeeCache, key: string, now: nat)
    ensures PeriodSum(caches + [c], key, now) == PeriodSum(caches, key, now) + Contribution(c, key, now)
  {
    assert (caches + [c])[..|caches|] == caches;
  }

  /** Recording a reward makes the period sum for its key grow by exactly the reward at the
      moment it is recorded, and leaves the sum for every other key as it was. */
  lemma RecordGrowsSumByAmount(caches: seq<FeeCache>, key: string, amount: nat, now: nat)
    ensures PeriodSum(caches + [NewFeeCache(key, amount, now)], key, now) == PeriodSum(caches, key, now) + amount
    ensures forall other | other != key ::
              PeriodSum(caches + [NewFeeCache(key, amount, now)], other, now) == PeriodSum(caches, other, now)
  {
    PeriodSumAppend(caches, NewFeeCache(key, amount, now), key, now);
    forall other | other != key
      ensures PeriodSum(caches + [NewFeeCache(key, amount, now)], other, now) == PeriodSum(caches, other, now)
    {
      PeriodSumAppend(caches, NewFeeCache(key, amount, now), other, now);
    }
  }

  /** The period sum only decays as time passes: no reward comes back after expiring. */
  lemma {:induction false} PeriodSumDecays(caches: seq<FeeCache>, key: string, now: nat, later: nat)
    requires now <= later
    ensures PeriodSum(caches, key, later) <= PeriodSum(caches, key, now)
    decreases |caches|
  {
    if caches != [] {
      var n := |caches|;
      PeriodSumDecays(caches[..n - 1], key, now, later);
      var c := caches[n - 1];
      if key in c && Live(c[key], later, FEE_LIFETIME, FEE_LIFETIME) {
        assert Live(c[key], now, FEE_LIFETIME, FEE_LIFETIME);
      }
    }
  }

  /** FEE_LIFETIME after the last reward was written, the period sum of every key is zero. */
  lemma {:induction false} PeriodSumExpires(caches: seq<FeeCache>, key: string, t: nat, now: nat)
    requires WrittenBy(caches, t)
    requires t + FEE_LIFETIME <= now
    ensures PeriodSum(caches, key, now) == 0
    decreases |caches|
  {
    if caches != [] {
      var n := |caches|;
      assert WrittenBy(caches[..n - 1], t) by {
        forall i | 0 <= i < n - 1
          ensures caches[..n - 1][i] == caches[i]
        {
        }
      }
      PeriodSumExpires(caches[..n - 1], key, t, now);
      var c := caches[n - 1];
      if key in c {
        assert c[key].insertedAt <= t;
      }
    }
  }

  /** Reading a fee cache restarts its idle clock, but since its idle limit equals its
      absolute one, a cache entry read at any time after being written still counts exactly
      while `now < insertedAt + FEE_LIFETIME`: reads never change a period sum. */
  lemma ReadsNeverExtendFees(c: FeeCache, key: string, now: nat, readAt: nat)
    requires key in c && c[key].insertedAt <= readAt
    ensures Contribution(c[key := c[key].(lastAccess := readAt)], key, now)
         == if now < c[key].insertedAt + FEE_LIFETIME then c[key].value else 0
  {
    IdleNeverBinds(c[key].(lastAccess := readAt), now, FEE_LIFETIME);
  }

  /** Distinct (chain, receiver, denom) triples have distinct cache keys, provided the chain
      and receiver contain no `/` (the separator of the key). */
  lemma FeeKeyInjective(chain1: string, receiver1: string, denom1: string,
                        chain2: string, receiver2: string, denom2: string)
    requires '/' !in chain1 && '/' !in receiver1 && '/' !in chain2 && '/' !in receiver2
    requires FeeKey(chain1, receiver1, denom1) == FeeKey(chain2, receiver2, denom2)
    ensures chain1 == chain2 && receiver1 == receiver2 && denom1 == denom2
  {
    var p := "fee_amount:";
    assert FeeKey(chain1, receiver1, denom1) == p + (chain1 + "/" + (receiver1 + "/" + denom1));
    assert FeeKey(chain2, receiver2, denom2) == p + (chain2 + "/" + (receiver2 + "/" + denom2));
    var rest1 := chain1 + "/" + (receiver1 + "/" + denom1);
    var rest2 := chain2 + "/" + (receiver2 + "/" + denom2);
    assert rest1 == FeeKey(chain1, receiver1, denom1)[|p|..];
    assert rest2 == FeeKey(chain2, receiver2, denom2)[|p|..];
    SplitAtSeparator(chain1, receiver1 + "/" + denom1, chain2, receiver2 + "/" + denom2);
    SplitAtSeparator(receiver1, denom1, receiver2, denom2);
  }

  /** A string with no `/`, followed by `/`, is recovered from the concatenation. */
  lemma SplitAtSeparator(a1: string, b1: string, a2: string, b2: string)
    requires '/' !in a1 && '/' !in a2
    requires a1 + "/" + b1 == a2 + "/" + b2
    ensures a1 == a2 && b1 == b2
  {
    var s := a1 + "/" + b1;
    FirstSeparator(a1, b1);
    FirstSeparator(a2, b2);
    assert |a1| == |a2|;
    assert a1 == s[..|a1|];
    assert a2 == (a2 + "/" + b2)[..|a2|];
    assert b1 == s[|a1| + 1..];
    assert b2 == (a2 + "/" + b2)[|a2| + 1..];
  }

  /** In `a + "/" + b` with no `/` in `a`, the first `/` stands right after `a`. */
  lemma FirstSeparator(a: string, b: string)
    requires '/' !in a
    ensures (a + "/" + b)[|a|] == '/'
    ensures forall i | 0 <= i < |a| :: (a + "/" + b)[i] != '/'
  {
    forall i | 0 <= i < |a|
      ensures (a + "/" + b)[i] != '/'
    {
      assert (a + "/" + b)[i] == a[i];
    }
  }

  /** The fee state: the visible receivers, the list of fee caches (it only grows), the
      `fee_amounts` counter and the `ics29_period_fees` gauge, per label set. */
  class FeeLedger {
    var visibleFeeAddresses: set<string>
    var cachedFees: seq<FeeCache>
    var feeAmounts: map<FeeLabels, nat>
    var periodFees: map<FeeLabels, nat>

    constructor ()
      ensures visibleFeeAddresses == {} && cachedFees == [] && feeAmounts == map[] && periodFees == map[]
    {
      visibleFeeAddresses, cachedFees, feeAmounts, periodFees := {}, [], map[], map[];
    }

    /** `add_visible_fee_address`: rewards to `address` are recorded from now on. */
    method AddVisibleFeeAddress(address: string)
      modifies this
      ensures visibleFeeAddresses == old(visibleFeeAddresses) + {address}
      ensures cachedFees == old(cachedFees) && feeAmounts == old(feeAmounts) && periodFees == old(periodFees)
    {
      visibleFeeAddresses := visibleFeeAddresses + {address};
    }

    /** `fees_amount`: a reward of `amount` in `denom` to `receiver` on `chainId`, observed at
        `now`. For a receiver that is not visible nothing changes. Otherwise the counter
        grows by `amount`, exactly one cache holding the reward is appended, and the gauge
        reports the period sum for the key, which is the sum before the call plus `amount`. */
    method FeesAmount(chainId: string, receiver: string, denom: string, amount: nat, now: nat)
      modifies this
      ensures visibleFeeAddresses == old(visibleFeeAddresses)
      ensures receiver !in old(visibleFeeAddresses) ==>
                cachedFees == old(cachedFees) && feeAmounts == old(feeAmounts) && periodFees == old(periodFees)
      ensures receiver in old(visibleFeeAddresses) ==>
                var labels := FeeLabels(chainId, receiver, denom);
                var key := FeeKey(chainId, receiver, denom);
                && cachedFees == old(cachedFees) + [NewFeeCache(key, amount, now)]
                && feeAmounts == old(feeAmounts)[labels := (if labels in old(feeAmounts) then old(feeAmounts)[labels] else 0) + amount]
                && periodFees == old(periodFees)[labels := PeriodSum(cachedFees, key, now)]
                && periodFees[labels] == PeriodSum(old(cachedFees), key, now) + amount
    {
      if receiver !in visibleFeeAddresses {
        return;
      }
      var labels := FeeLabels(chainId, receiver, denom);
      var total := if labels in feeAmounts then feeAmounts[labels] else 0;
      feeAmounts := feeAmounts[labels := total + amount];
      var key := FeeKey(chainId, receiver, denom);
      var ephemeralFee := NewFeeCache(key, amount, now);
      RecordGrowsSumByAmount(cachedFees, key, amount, now);
      cachedFees := cachedFees + [ephemeralFee];
      var sum := PeriodSum(cachedFees, key, now);
      periodFees := periodFees[labels := sum];
    }

    /** `update_period_fees`: re-observe the period sum for a key at `now` without recording
        anything; no receiver check is made and the cache list is left as it is. */
    method UpdatePeriodFees(chainId: string, receiver: string, denom: string, now: nat)
      modifies this
      ensures visibleFeeAddresses == old(visibleFeeAddresses) && cachedFees == old(cachedFees)
      ensures feeAmounts == old(feeAmounts)
      ensures periodFees == old(periodFees)[FeeLabels(chainId, receiver, denom) := PeriodSum(cachedFees, FeeKey(chainId, receiver, denom), now)]
    {
      var labels := FeeLabels(chainId, receiver, denom);
      var key := FeeKey(chainId, receiver, denom);
      var sum := PeriodSum(cachedFees, key, now);
      periodFees := periodFees[labels := sum];
    }
  }
}
