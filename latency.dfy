/** Transaction latency of the telemetry state: the instant a batch of events was received
    is remembered under its tracking id, and when the batch's transactions are submitted or
    confirmed the time elapsed since then is recorded once per transaction. Instants are
    milliseconds read from an explicit monotonic clock. */
module Latency {
  import opened Wrappers
  import opened Identifiers
  import opened Expiry

  /** An in-flight entry is dropped one hour after it was written ... */
  const IN_FLIGHT_TTL: nat := 60 * 60 * 1000
  /** ... or after thirty minutes without being read. */
  const IN_FLIGHT_TTI: nat := 30 * 60 * 1000

  /** One observation recorded into a latency histogram. */
  datatype Sample = Sample(labels: PathLabels, latency: nat)

  /** `count` copies of one observation. */
  function Repeat(s: Sample, count: nat): (r: seq<Sample>)
    ensures |r| == count
    ensures forall i | 0 <= i < count :: r[i] == s
  {
    if count == 0 then [] else Repeat(s, count - 1) + [s]
  }

  /** Milliseconds from `start` to `now`; a clock reading before `start` gives zero, as the
      elapsed time of an instant in the future does. */
  function Elapsed(start: nat, now: nat): (r: nat)
    ensures start + r == now || (now < start && r == 0)
  {
    if start <= now then now - start else 0
  }

  /** The loop `for _ in 0..tx_count { histogram.record(latency, labels) }`: the observations
      it records, in order. */
  method RecordRepeatedly(labels: PathLabels, latency: nat, txCount: nat) returns (recorded: seq<Sample>)
    ensures |recorded| == txCount
    ensures forall i | 0 <= i < |recorded| :: recorded[i] == Sample(labels, latency)
  {
    recorded := [];
    for i := 0 to txCount
      invariant |recorded| == i
      invariant forall j | 0 <= j < i :: recorded[j] == Sample(labels, latency)
    {
      recorded := recorded + [Sample(labels, latency)];
    }
  }

  /** The in-flight events cache and the `tx_latency_submitted` and `tx_latency_confirmed`
      histograms, each as the list of observations recorded into it. */
  class InFlightEvents {
    var inFlightEvents: Cache<string, nat>
    var txLatencySubmitted: seq<Sample>
    var txLatencyConfirmed: seq<Sample>

    constructor ()
      ensures inFlightEvents == map[] && txLatencySubmitted == [] && txLatencyConfirmed == []
    {
      inFlightEvents, txLatencySubmitted, txLatencyConfirmed := map[], [], [];
    }

    /** `received_event_batch`: remember `now` as the start of the batch `trackingId`,
        replacing any earlier start recorded under the same id. */
    method ReceivedEventBatch(trackingId: string, now: nat)
      modifies this
      ensures inFlightEvents == Insert(old(inFlightEvents), trackingId, now, now)
      ensures txLatencySubmitted == old(txLatencySubmitted) && txLatencyConfirmed == old(txLatencyConfirmed)
    {
      inFlightEvents := Insert(inFlightEvents, trackingId, now, now);
    }

    /** The lookup shared by submit and confirm: the start of the batch if its entry is still
        live at `now` (reading it restarts its idle clock), nothing otherwise. */
    method StartOf(trackingId: string, now: nat) returns (start: Option<nat>)
      modifies this
      ensures start == Get(old(inFlightEvents), trackingId, now, IN_FLIGHT_TTL, IN_FLIGHT_TTI)
      ensures inFlightEvents == Touch(old(inFlightEvents), trackingId, now, IN_FLIGHT_TTL, IN_FLIGHT_TTI)
      ensures txLatencySubmitted == old(txLatencySubmitted) && txLatencyConfirmed == old(txLatencyConfirmed)
    {
      start := Get(inFlightEvents, trackingId, now, IN_FLIGHT_TTL, IN_FLIGHT_TTI);
      inFlightEvents := Touch(inFlightEvents, trackingId, now, IN_FLIGHT_TTL, IN_FLIGHT_TTI);
    }

    /** `tx_submitted`: `txCount` transactions of batch `trackingId` were submitted at `now`.
        If the batch's start is still cached, the submit histogram receives exactly `txCount`
        observations of the time elapsed since it; otherwise nothing is recorded. */
    method TxSubmitted(txCount: nat, trackingId: string, chainId: string, channelId: string,
                       portId: string, counterpartyChainId: string, now: nat)
      modifies this
      ensures inFlightEvents == Touch(old(inFlightEvents), trackingId, now, IN_FLIGHT_TTL, IN_FLIGHT_TTI)
      ensures txLatencyConfirmed == old(txLatencyConfirmed)
      ensures txLatencySubmitted == old(txLatencySubmitted) +
                match Get(old(inFlightEvents), trackingId, now, IN_FLIGHT_TTL, IN_FLIGHT_TTI)
                case Some(start) =>
                  Repeat(Sample(PathLabels(chainId, counterpartyChainId, channelId, portId), Elapsed(start, now)), txCount)
                case None => []
    {
      var start := StartOf(trackingId, now);
      if start.Some? {
        var latency := Elapsed(start.value, now);
        var labels := PathLabels(chainId, counterpartyChainId, channelId, portId);
        var recorded := RecordRepeatedly(labels, latency, txCount);
        assert recorded == Repeat(Sample(labels, latency), txCount);
        txLatencySubmitted := txLatencySubmitted + recorded;
      }
    }

    /** `tx_confirmed`: `txCount` transactions of batch `trackingId` were confirmed at `now`.
        If the batch's start is still cached, the confirm histogram receives exactly `txCount`
        observations of the time elapsed since it; otherwise nothing is recorded. */
    method TxConfirmed(txCount: nat, trackingId: string, chainId: string, channelId: string,
                       portId: string, counterpartyChainId: string, now: nat)
      modifies this
      ensures inFlightEvents == Touch(old(inFlightEvents), trackingId, now, IN_FLIGHT_TTL, IN_FLIGHT_TTI)
      ensures txLatencySubmitted == old(txLatencySubmitted)
      ensures txLatencyConfirmed == old(txLatencyConfirmed) +
                match Get(old(inFlightEvents), trackingId, now, IN_FLIGHT_TTL, IN_FLIGHT_TTI)
                case Some(start) =>
                  Repeat(Sample(PathLabels(chainId, counterpartyChainId, channelId, portId), Elapsed(start, now)), txCount)
                case None => []
    {
      var start := StartOf(trackingId, now);
      if start.Some? {
        var latency := Elapsed(start.value, now);
        var labels := PathLabels(chainId, counterpartyChainId, channelId, portId);
        var recorded := RecordRepeatedly(labels, latency, txCount);
        assert recorded == Repeat(Sample(labels, latency), txCount);
        txLatencyConfirmed := txLatencyConfirmed + recorded;
      }
    }
  }

  /** A batch received at `t0` and submitted at `t1` within half an hour, then confirmed at
      `t2` within half an hour of the submission and within the hour after `t0`, yields a
      submit latency of `t1 - t0` and a confirm latency of `t2 - t0`: the read made on
      submission keeps the entry from going idle. */
  lemma SubmitKeepsBatchAlive(c: Cache<string, nat>, id: string, t0: nat, t1: nat, t2: nat)
    requires t0 <= t1 < t0 + IN_FLIGHT_TTI
    requires t1 <= t2 < t1 + IN_FLIGHT_TTI && t2 < t0 + IN_FLIGHT_TTL
    ensures Get(Insert(c, id, t0, t0), id, t1, IN_FLIGHT_TTL, IN_FLIGHT_TTI) == Some(t0)
    ensures var afterSubmit := Touch(Insert(c, id, t0, t0), id, t1, IN_FLIGHT_TTL, IN_FLIGHT_TTI);
            Get(afterSubmit, id, t2, IN_FLIGHT_TTL, IN_FLIGHT_TTI) == Some(t0)
    ensures Elapsed(t0, t1) == t1 - t0 && Elapsed(t0, t2) == t2 - t0
  {
    GetAfterInsert(c, id, t0, t0, t1, IN_FLIGHT_TTL, IN_FLIGHT_TTI);
    TouchExtendsIdle(Insert(c, id, t0, t0), id, t1, t2, IN_FLIGHT_TTL, IN_FLIGHT_TTI);
  }

  /** An hour after a batch was received nothing is recorded for it, however often it was read. */
  lemma NoLatencyAfterAnHour(c: Cache<string, nat>, id: string, now: nat)
    requires id in c && c[id].insertedAt + IN_FLIGHT_TTL <= now
    ensures Get(c, id, now, IN_FLIGHT_TTL, IN_FLIGHT_TTI) == None
    ensures forall t: nat | t <= now :: Get(Touch(c, id, t, IN_FLIGHT_TTL, IN_FLIGHT_TTI), id, now, IN_FLIGHT_TTL, IN_FLIGHT_TTI) == None
  {
  }
}
