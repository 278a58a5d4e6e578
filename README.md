# Telemetry state of the Hermes IBC relayer, in Dafny

This project models four parts of the relayer's telemetry state (`TelemetryState` in
`crates/telemetry/src/state.rs`) that hold logic of their own, and proves what they promise:

- **Packet backlog** (`backlog.dfy`, module `Backlog`, class `Backlogs`). For every relay path
  (chain, channel, port) the relayer keeps the sequence numbers of SendPacket events not yet
  acknowledged or timed out, each with the unix time (seconds) at which it was recorded.
  After every change it observes three gauges for the path's label set: the oldest pending
  sequence (the minimum key, or the sentinel `0`), the time of the update, and the number
  of pending packets. A path holding more than `BACKLOG_RESET_THRESHOLD` (900) entries
  loses its smallest sequence before an insert. `update_backlog` reconciles a path with a
  list of pending sequences that a chain query returned. The module `BacklogExamples`
  replays the three unit tests of the source.
- **ICS-29 fee window** (`fees.dfy`, module `Fees`, class `FeeLedger`). A reward to a
  receiver that is not visible is ignored. Any other reward is added to the `fee_amounts`
  counter and placed in a fresh one-entry cache, which is appended to an ever-growing list.
  The `ics29_period_fees` gauge reports the sum of the live entries for the reward's key
  across the whole list. Every cache lives seven days (`FEE_LIFETIME`).
- **Transaction latency** (`latency.dfy`, module `Latency`, class `InFlightEvents`). The
  instant a batch of events was received is remembered under its tracking id, in a cache
  whose entries live at most an hour and at most thirty minutes without being read. When
  the batch's transactions are submitted or confirmed, the elapsed milliseconds are
  recorded into a histogram once per transaction.
- **Histogram buckets** (`buckets.dfy`, module `Buckets`). `build_histogram_buckets`
  computes the `buckets + 1` evenly spaced boundaries of the latency histograms.

The time-based expiry of the `moka` caches is modelled once, in `expiry.dfy` (module
`Expiry`). An entry records its value, the instant it was written and the instant it was last
read. It is visible while neither its time-to-live nor its time-to-idle has run out, and a
read of a visible entry restarts its idle clock. `identifiers.dfy` holds the path identifier
and the gauge label set, and `wrappers.dfy` holds `Option`.

Every reading of a clock is a parameter. The three backlog operations take the unix time in
seconds. The fee operations take seconds of a monotonic clock. The latency operations take a monotonic instant in
milliseconds. Metrics are fields: a gauge is a map from label set to the value it last
observed, a counter is a map from label set to its total, and a histogram is the sequence of
observations recorded into it. The three backlog gauges are always observed together, so they
form one `BacklogReport` per label set.

`BACKLOG_CAPACITY` (1000) is only the initial allocation of a new inner map
(`state.rs:1011`); it bounds nothing. The bound the code keeps is `BACKLOG_RESET_THRESHOLD + 1`
= 901, which is the invariant `Backlogs.Valid` and the lemma `InsertAllBounded`. Because the
eviction test looks only at the size, re-inserting a sequence that is already pending into a
backlog of 901 entries still evicts the smallest one first: unless the re-inserted sequence is
that smallest one, the size drops to 900 (`InsertedSpec`). For the same reason a non-empty
reconciliation can lose sequences of the supplied list: for the list 1, 2, …, 901, 5, the
final insert finds 901 entries and evicts 1. `ReconciledKeys` gives a sufficient condition
for the path's backlog to be rebuilt exactly from the list: that the values before the last
one hold at most 900 distinct sequences.

`crates/telemetry/src/path_identifier.rs` is not part of this model. `PathIdentifier` is
taken to be the triple of chain id, channel id and port id that `PathIdentifier::new`
receives.

## Model

| member | source | states |
|---|---|---|
| Backlog.SetMin | crates/telemetry/src/state.rs:995 | the minimum of a non-empty set of sequence numbers is one of them and no larger than any of them |
| Backlog.OldestIsMinimum | crates/telemetry/src/state.rs:1002-1008 | the oldest-sequence gauge reads the sentinel for an empty backlog and otherwise the smallest pending key; while sequence 0 is unused, the sentinel is read exactly when the backlog is empty |
| Backlog.OldestUnique | crates/telemetry/src/state.rs:1002-1003 | any pending key no larger than every pending key is the one the oldest-sequence gauge reports |
| Backlog.EvictionRemovesSmallest | crates/telemetry/src/state.rs:994-998 | eviction does nothing to a backlog of at most 900 entries; above that it removes exactly one key, the smallest present, and keeps the times of every other key |
| Backlog.InsertedSpec | crates/telemetry/src/state.rs:994-999 | after an insert the sequence is pending with the given time; below the threshold an insert is a plain map update, re-inserting a present key keeps the size and a new key adds one; above it the smallest key goes first; a backlog of at most 901 entries stays within 901 |
| Backlog.ReinsertAtBoundShrinks | crates/telemetry/src/state.rs:994-999 | re-inserting a pending sequence other than the smallest into a backlog of 901 entries evicts the smallest first, so the backlog loses it and ends with 900 entries |
| Backlog.FirstInsert | crates/telemetry/src/state.rs:1009-1017 | on a path with no backlog the result is exactly the one inserted sequence, reported as oldest with size 1 |
| Backlog.InsertAllBounded | crates/telemetry/src/state.rs:994-999 | any number of inserts into a backlog of at most 901 entries leaves at most 901 |
| Backlog.ReconciledKeys | crates/telemetry/src/state.rs:1060-1064 | re-inserting a non-empty list into an emptied path yields exactly the list's distinct sequences, all stamped with the reconciliation time, when the values before the last hold at most 900 distinct sequences |
| Backlog.ReconcileStep | crates/telemetry/src/state.rs:1062-1063 | an insert into a backlog below the threshold whose entries all carry one time adds exactly the new key and keeps every entry at that time |
| Backlog.MinKey | crates/telemetry/src/state.rs:995 | scanning the keys finds nothing exactly when the backlog is empty, and otherwise a pending key no larger than any other |
| Backlog.InsertInto | crates/telemetry/src/state.rs:991-1008 | the existing-path branch of an insert yields the evict-then-insert backlog, with the new sequence pending at the given time, and reports its minimum key and its size |
| Backlog.RemoveFrom | crates/telemetry/src/state.rs:1102-1115 | removing a present key drops exactly that key and shrinks the size by one; the report is the remaining minimum and count, or the sentinel pair when nothing is left |
| Backlog.Backlogs.constructor | crates/telemetry/src/state.rs:422 | the state starts with no backlog and no gauge reading |
| Backlog.Backlogs.BacklogInsert | crates/telemetry/src/state.rs:961-1025 | only the path's backlog changes, to the evict-then-insert result (from an empty backlog on a new path); only its label set's report changes, to the new minimum, the time and the new size; every backlog stays within 901 entries |
| Backlog.Backlogs.BacklogRemove | crates/telemetry/src/state.rs:1072-1118 | a present key is removed from its path alone and the label set reports what is left; an absent key or an unknown path changes neither backlogs nor reports |
| Backlog.Backlogs.UpdateBacklog | crates/telemetry/src/state.rs:1029-1066 | an empty list empties a path that holds packets and reports the sentinel, the time and size 0, leaving a missing or already empty path untouched; a non-empty list replaces the path's backlog by inserting the list in order from empty; no other path changes |
| Backlog.Backlogs.DrainBacklog | crates/telemetry/src/state.rs:1048-1059 | removing every key the path held, one call of the remove operation each, leaves the path empty with the sentinel reported, or changes nothing when it held no key |
| Backlog.Backlogs.ReplaceBacklog | crates/telemetry/src/state.rs:1060-1065 | dropping the path and inserting every supplied sequence in order, one call of the insert operation each, leaves the left fold of inserts on the path and reports on it |
| BacklogExamples.InsertRemoveBacklog | crates/telemetry/src/state.rs:1291-1336 | inserting 1 to 5 and removing 3 and 1 reports size 3 with oldest 2 |
| BacklogExamples.UpdateBacklogToFive | crates/telemetry/src/state.rs:1339-1390 | inserting 1 to 5 and reconciling with [5] reports size 1 with oldest 5 |
| BacklogExamples.UpdateBacklogToEmpty | crates/telemetry/src/state.rs:1393-1444 | inserting 1 to 5 and reconciling with an empty list reports size 0 with the sentinel as oldest |
| Expiry.GetAfterInsert | crates/telemetry/src/state.rs:417-420 | a value just written is returned until the shorter of its two lifetimes has passed, and writing one key changes what no other key returns |
| Expiry.TouchExtendsIdle | crates/telemetry/src/state.rs:417-420 | a read of a live entry keeps it visible for another idle period, never past its time-to-live, and it still returns the same value |
| Expiry.IdleNeverBinds | crates/telemetry/src/state.rs:1137-1140 | with equal idle and absolute limits, an entry read after its insertion is live exactly while its absolute lifetime lasts |
| Expiry.ExpiryIsFinal | crates/telemetry/src/state.rs:417-420 | an expired entry stays expired at every later instant |
| Fees.PeriodSumAppend | crates/telemetry/src/state.rs:1148 | appending a cache to the list adds exactly that cache's live value for the key to the sum |
| Fees.RecordGrowsSumByAmount | crates/telemetry/src/state.rs:1142-1148 | at the instant a reward is recorded the period sum for its key grows by exactly the reward, and the sum for every other key is unchanged |
| Fees.PeriodSumDecays | crates/telemetry/src/state.rs:70 | the period sum never grows as time passes without new rewards |
| Fees.PeriodSumExpires | crates/telemetry/src/state.rs:70 | FEE_LIFETIME after the last reward was written every period sum is zero |
| Fees.ReadsNeverExtendFees | crates/telemetry/src/state.rs:1137-1140 | the idle refresh made by a read never changes a cache's contribution: it counts exactly during the seven days after it was written |
| Fees.FeeKeyInjective | crates/telemetry/src/state.rs:1142 | distinct chain, receiver and denom triples get distinct cache keys when chain and receiver contain no `/` |
| Fees.FeeLedger.constructor | crates/telemetry/src/state.rs:445-447 | the ledger starts with no visible receiver, no cache and no metric reading |
| Fees.FeeLedger.AddVisibleFeeAddress | crates/telemetry/src/state.rs:1171-1173 | the address joins the visible set and nothing else changes |
| Fees.FeeLedger.FeesAmount | crates/telemetry/src/state.rs:1122-1151 | a reward to a receiver that is not visible changes nothing; otherwise the counter grows by the amount, exactly one cache holding the reward is appended, and the gauge reports the live sum for the key, which is the sum before the call plus the amount |
| Fees.FeeLedger.UpdatePeriodFees | crates/telemetry/src/state.rs:1153-1167 | the gauge reports the live sum for the key at the given time; the cache list, the counter and the visible set are unchanged |
| Latency.Repeat | crates/telemetry/src/state.rs:832-834 | `count` copies of one observation: exactly `count` elements, all equal to it |
| Latency.Elapsed | crates/telemetry/src/state.rs:822 | the elapsed milliseconds added to the start give the current instant, and a start later than the current instant gives zero |
| Latency.RecordRepeatedly | crates/telemetry/src/state.rs:832-834 | the loop records exactly `tx_count` observations, each with the same labels and latency |
| Latency.InFlightEvents.constructor | crates/telemetry/src/state.rs:417-420 | no batch is in flight and both histograms are empty |
| Latency.InFlightEvents.ReceivedEventBatch | crates/telemetry/src/state.rs:805-808 | the batch's start becomes the current instant, replacing any earlier start under the same id; the histograms are unchanged |
| Latency.InFlightEvents.StartOf | crates/telemetry/src/state.rs:821 | the lookup yields the start only while the entry is live, and restarts its idle clock when it does |
| Latency.InFlightEvents.TxSubmitted | crates/telemetry/src/state.rs:810-836 | while the batch's entry is live, exactly `tx_count` observations of the time elapsed since its start are appended to the submit histogram under the path's labels; otherwise nothing is recorded; the confirm histogram is unchanged |
| Latency.InFlightEvents.TxConfirmed | crates/telemetry/src/state.rs:838-864 | the same for the confirm histogram, leaving the submit histogram unchanged |
| Latency.SubmitKeepsBatchAlive | crates/telemetry/src/state.rs:417-420 | a batch submitted within thirty minutes of being received and confirmed within thirty minutes of the submission and within the hour gives both latencies, measured from the receipt |
| Latency.NoLatencyAfterAnHour | crates/telemetry/src/state.rs:417-418 | an hour after a batch was received no latency is recorded for it, however recently it was read |
| Buckets.BucketsSpanRange | crates/telemetry/src/state.rs:1277-1282 | there are `buckets + 1` boundaries, starting at `start`, spaced by one constant step and never decreasing; the last one falls short of `end` by the remainder of the division, so it is at most `end` and equals it exactly when `buckets` divides the range |

## Left out

- Metric export: the OpenTelemetry meter, the Prometheus registry and exporter, and the
  views. They are calls into foreign libraries; a metric is modelled as the values observed
  or recorded into it.
- The counter-forwarding operations (`worker`, `client_updates_*`, `*_events`, `query`,
  `ws_*`, `broadcast_errors` and the like) and the `init_*` methods: they only add to a
  counter under a label set.
- `wallet_balance` and the dynamic gas fee histograms: floating-point values passed through
  to the metrics library.
- Concurrency: the backlogs, the visible addresses and the cache list sit in concurrent maps
  or behind a mutex. The model is one sequential state, so interleaved updates are not
  captured; this includes the branch of `backlog_insert` that reports the sentinel pair
  after an insert, which only a concurrent removal can reach.
- Clocks: `Time::now`, `Instant::now` and `elapsed` are parameters. The source falls back to
  time 0 when the system clock reads before the unix epoch; the model takes the time as given.
- Backlog.Backlogs.UpdateBacklog: reads the clock once per call. The source reads it again
  in every `backlog_remove` and `backlog_insert` it makes, so in the source the recorded times
  and the reported update time can differ by the time the loop takes.
- Backlog.Backlogs.DrainBacklog: removes keys in no stated order. The source removes them in
  the iteration order of the inner map, which the final state does not depend on.
- Integer widths: sequence numbers, times, amounts and counts are unbounded naturals. The
  source's `u64` fee sum can overflow, `amount.as_u64()` panics on an amount above `u64`, and
  `as_millis() as u64` truncates. None of these is modelled.
- Buckets.BuildHistogramBuckets: returns naturals; the final `as f64` conversion is not
  modelled. A zero bucket count or an `end` below `start` is a precondition, because the
  source then divides by zero or underflows.
- Fees.FeeLedger.FeesAmount: the fee caches do not record the idle-clock refresh that a
  read makes. `Fees.ReadsNeverExtendFees` shows it cannot change any sum, because the idle and
  absolute limits are equal.
- The internals of the `moka` caches (eviction by size, background maintenance): an entry
  that has expired stays in the modelled map, but no lookup returns it.
- The creation of a telemetry state and its configuration (`TelemetryState::new`), beyond
  the initial empty fields each class's constructor sets.
- `crates/relayer/src/lib.rs` only declares modules and a version string.
