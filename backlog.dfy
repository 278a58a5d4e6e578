/** The per-path packet backlog of the telemetry state: for every relay path, the sequence
    numbers of the SendPacket events not yet acknowledged or timed out, each with the unix
    time (seconds) at which it was recorded, and the three gauges derived from it. */
module Backlog {
  import opened Wrappers
  import opened Identifiers

  /** Reported as the oldest sequence when a path has no pending packet. */
  const EMPTY_BACKLOG_SYMBOL: nat := 0
  /** Initial capacity of a new inner backlog. It is only an allocation hint, bounds nothing,
      and is kept here for reference; no operation of the model uses it. */
  const BACKLOG_CAPACITY: nat := 1000
  /** A path holding more entries than this loses its smallest sequence before an insert. */
  const BACKLOG_RESET_THRESHOLD: nat := 900

  /** Sequence number to the unix time (seconds) at which it entered the backlog. */
  type PathBacklog = map<nat, nat>

  /** The smallest element of a non-empty set of sequence numbers. */
  ghost function SetMin(s: set<nat>): (r: nat)
    requires s != {}
    ensures r in s && forall k | k in s :: r <= k
    decreases s
  {
    var x :| x in s;
    if s == {x} then
      assert forall k | k in s :: k == x;
      x
    else
      var m := SetMin(s - {x});
      assert forall k | k in s :: k == x || k in s - {x};
      if x <= m then x else m
  }

  /** The value of the `backlog_oldest_sequence` gauge for a backlog. */
  ghost function Oldest(m: PathBacklog): nat
  {
    if m.Keys == {} then EMPTY_BACKLOG_SYMBOL else SetMin(m.Keys)
  }

  /** The inner backlog of a path; a path never seen has none, which behaves as an empty one. */
  function BacklogOf(backlogs: map<PathIdentifier, PathBacklog>, path: PathIdentifier): PathBacklog
  {
    if path in backlogs then backlogs[path] else map[]
  }

  /** The backlog after the eviction that precedes every insert. */
  ghost function Evicted(m: PathBacklog): PathBacklog
  {
    if |m| > BACKLOG_RESET_THRESHOLD then m - {SetMin(m.Keys)} else m
  }

  /** The backlog after `backlog_insert` of `seqNr` at time `ts`. */
  ghost function Inserted(m: PathBacklog, seqNr: nat, ts: nat): PathBacklog
  {
    Evicted(m)[seqNr := ts]
  }

  /** The backlog after inserting every element of `sequences`, in order, at time `ts`. */
  ghost function InsertAll(m: PathBacklog, sequences: seq<nat>, ts: nat): PathBacklog
    decreases |sequences|
  {
    if sequences == [] then m
    else Inserted(InsertAll(m, sequences[..|sequences| - 1], ts), sequences[|sequences| - 1], ts)
  }

  /** The distinct values of a list of sequence numbers. */
  ghost function Elems(sequences: seq<nat>): set<nat>
  {
    set x | x in sequences
  }

  /** The oldest-sequence gauge is the minimum pending sequence, or the sentinel when
      nothing is pending; as long as sequence 0 is never used, the sentinel means "empty". */
  lemma OldestIsMinimum(m: PathBacklog)
    ensures m == map[] ==> Oldest(m) == EMPTY_BACKLOG_SYMBOL
    ensures m != map[] ==> Oldest(m) in m && forall k | k in m :: Oldest(m) <= k
    ensures EMPTY_BACKLOG_SYMBOL !in m ==> (Oldest(m) == EMPTY_BACKLOG_SYMBOL <==> m == map[])
  {
    if m.Keys == {} {
      assert m == map[];
    } else {
      var k :| k in m.Keys;
      assert m != map[];
    }
  }

  /** The minimum is unique: any present key no larger than every key is the oldest. */
  lemma OldestUnique(m: PathBacklog, x: nat)
    requires x in m && forall k | k in m :: x <= k
    ensures Oldest(m) == x
  {
    OldestIsMinimum(m);
  }

  /** Eviction removes exactly one key, the smallest present, and only from a backlog
      holding more than BACKLOG_RESET_THRESHOLD entries. */
  lemma EvictionRemovesSmallest(m: PathBacklog)
    ensures |m| <= BACKLOG_RESET_THRESHOLD ==> Evicted(m) == m
    ensures |m| > BACKLOG_RESET_THRESHOLD ==>
              && Oldest(m) in m
              && Evicted(m) == m - {Oldest(m)}
              && |Evicted(m)| == |m| - 1
              && forall k | k in Evicted(m) :: Oldest(m) < k && m[k] == Evicted(m)[k]
  {
    if |m| > BACKLOG_RESET_THRESHOLD {
      assert m.Keys != {} by { assert |m.Keys| == |m|; }
      var e := m - {Oldest(m)};
      assert e.Keys == m.Keys - {Oldest(m)};
    }
  }

  /** What one insert does: the new sequence is present with the given time; below the
      threshold it is a plain map update (re-inserting a key overwrites its time and keeps the
      size); above it, the smallest key is dropped first; and a backlog of at most
      BACKLOG_RESET_THRESHOLD + 1 entries stays within that bound. */
  lemma InsertedSpec(m: PathBacklog, seqNr: nat, ts: nat)
    ensures seqNr in Inserted(m, seqNr, ts) && Inserted(m, seqNr, ts)[seqNr] == ts
    ensures |m| <= BACKLOG_RESET_THRESHOLD ==> Inserted(m, seqNr, ts) == m[seqNr := ts]
    ensures |m| <= BACKLOG_RESET_THRESHOLD && seqNr in m ==> |Inserted(m, seqNr, ts)| == |m|
    ensures |m| <= BACKLOG_RESET_THRESHOLD && seqNr !in m ==> |Inserted(m, seqNr, ts)| == |m| + 1
    ensures |m| > BACKLOG_RESET_THRESHOLD ==> Inserted(m, seqNr, ts) == (m - {Oldest(m)})[seqNr := ts]
    ensures |m| <= BACKLOG_RESET_THRESHOLD + 1 ==> |Inserted(m, seqNr, ts)| <= BACKLOG_RESET_THRESHOLD + 1
  {
    EvictionRemovesSmallest(m);
    var e := Evicted(m);
    var r := e[seqNr := ts];
    assert r.Keys == e.Keys + {seqNr};
    if seqNr in e {
      assert r.Keys == e.Keys;
    } else {
      assert |r.Keys| == |e.Keys| + 1;
    }
  }

  /** The eviction test looks only at the size: re-inserting a pending sequence other than
      the smallest into a backlog of BACKLOG_RESET_THRESHOLD + 1 entries still evicts the
      smallest, so the backlog shrinks by one and loses that sequence. */
  lemma ReinsertAtBoundShrinks(m: PathBacklog, seqNr: nat, ts: nat)
    requires |m| == BACKLOG_RESET_THRESHOLD + 1
    requires seqNr in m && seqNr != Oldest(m)
    ensures |Inserted(m, seqNr, ts)| == BACKLOG_RESET_THRESHOLD
    ensures Oldest(m) in m && Oldest(m) !in Inserted(m, seqNr, ts)
  {
    EvictionRemovesSmallest(m);
    var e := Evicted(m);
    assert seqNr in e;
    assert e[seqNr := ts].Keys == e.Keys;
  }

  /** A path seen for the first time holds exactly the inserted sequence, and the gauges
      report that sequence as oldest and a size of one. */
  lemma FirstInsert(seqNr: nat, ts: nat)
    ensures Inserted(map[], seqNr, ts) == map[seqNr := ts]
    ensures Oldest(map[seqNr := ts]) == seqNr && |map[seqNr := ts]| == 1
  {
    OldestIsMinimum(map[seqNr := ts]);
    assert map[seqNr := ts].Keys == {seqNr};
  }

  /** However many sequences are inserted, a backlog that starts within
      BACKLOG_RESET_THRESHOLD + 1 entries never grows beyond it. */
  lemma {:induction false} InsertAllBounded(m: PathBacklog, sequences: seq<nat>, ts: nat)
    requires |m| <= BACKLOG_RESET_THRESHOLD + 1
    ensures |InsertAll(m, sequences, ts)| <= BACKLOG_RESET_THRESHOLD + 1
    decreases |sequences|
  {
    if sequences != [] {
      var n := |sequences|;
      InsertAllBounded(m, sequences[..n - 1], ts);
      InsertedSpec(InsertAll(m, sequences[..n - 1], ts), sequences[n - 1], ts);
    }
  }

  /** Reconciliation from an empty backlog yields exactly the supplied sequences, all stamped
      with the reconciliation time, provided no eviction fires: the values before the last
      hold at most BACKLOG_RESET_THRESHOLD distinct sequences. */
  lemma {:induction false} ReconciledKeys(sequences: seq<nat>, ts: nat)
    requires |sequences| > 0
    requires |Elems(sequences[..|sequences| - 1])| <= BACKLOG_RESET_THRESHOLD
    ensures InsertAll(map[], sequences, ts).Keys == Elems(sequences)
    ensures forall k | k in InsertAll(map[], sequences, ts) :: InsertAll(map[], sequences, ts)[k] == ts
    decreases |sequences|
  {
    var n := |sequences|;
    var p := sequences[..n - 1];
    var x := sequences[n - 1];
    assert Elems(sequences) == Elems(p) + {x} by {
      assert sequences == p + [x];
    }
    if n == 1 {
      assert p == [];
      ReconcileStep(map[], x, ts);
    } else {
      assert Elems(p[..n - 2]) <= Elems(p) by {
        assert p[..n - 2] == sequences[..n - 2];
      }
      SubsetCard(Elems(p[..n - 2]), Elems(p));
      ReconciledKeys(p, ts);
      ReconcileStep(InsertAll(map[], p, ts), x, ts);
    }
  }

  /** Inserting into a backlog within BACKLOG_RESET_THRESHOLD entries, all stamped `ts`,
      adds exactly the new key, and every entry is still stamped `ts`. */
  lemma ReconcileStep(m: PathBacklog, x: nat, ts: nat)
    requires |m| <= BACKLOG_RESET_THRESHOLD
    requires forall k | k in m :: m[k] == ts
    ensures Inserted(m, x, ts).Keys == m.Keys + {x}
    ensures forall k | k in Inserted(m, x, ts) :: Inserted(m, x, ts)[k] == ts
  {
    InsertedSpec(m, x, ts);
  }

  /** A subset is no larger than its superset. */
  lemma {:induction false} SubsetCard(a: set<nat>, b: set<nat>)
    requires a <= b
    ensures |a| <= |b|
    decreases b
  {
    if a != {} {
      var x :| x in a;
      SubsetCard(a - {x}, b - {x});
    }
  }

  /** The minimum over the inner backlog's keys, found by scanning them, or nothing when it
      is empty. */
  method MinKey(m: PathBacklog) returns (r: Option<nat>)
    ensures r.None? <==> m == map[]
    ensures r.Some? ==> r.value in m && forall k | k in m :: r.value <= k
  {
    var keys := m.Keys;
    r := None;
    while keys != {}
      invariant keys <= m.Keys
      invariant r.None? <==> keys == m.Keys
      invariant r.Some? ==> r.value in m && forall k | k in m && k !in keys :: r.value <= k
      decreases keys
    {
      var k :| k in keys;
      if r.None? || k < r.value {
        r := Some(k);
      }
      keys := keys - {k};
    }
    if r.None? {
      assert m.Keys == {};
      assert m == map[];
    }
  }

  /** What the three gauges `backlog_oldest_sequence`, `backlog_latest_update_timestamp` and
      `backlog_size` last observed for one label set; the source always observes the three
      together. */
  datatype BacklogReport = BacklogReport(oldestSequence: nat, latestUpdateTimestamp: nat, size: nat)

  /** The report for a backlog observed at time `ts`. */
  ghost function Report(m: PathBacklog, ts: nat): BacklogReport
  {
    BacklogReport(Oldest(m), ts, |m|)
  }

  /** The existing-path branch of `backlog_insert`: evict the smallest key when the backlog
      holds more than BACKLOG_RESET_THRESHOLD entries, insert, then read back the minimum key
      and the size to report (the sentinel pair if no minimum were found). */
  method InsertInto(pathBacklog: PathBacklog, seqNr: nat, timestamp: nat)
    returns (r: PathBacklog, oldestSn: nat, total: nat)
    ensures r == Inserted(pathBacklog, seqNr, timestamp)
    ensures seqNr in r && r[seqNr] == timestamp
    ensures oldestSn in r && forall k | k in r :: oldestSn <= k
    ensures BacklogReport(oldestSn, timestamp, total) == Report(r, timestamp)
  {
    r := pathBacklog;
    if |r| > BACKLOG_RESET_THRESHOLD {
      var min := MinKey(r);
      if min.Some? {
        OldestIsMinimum(r);
        r := r - {min.value};
      }
    }
    r := r[seqNr := timestamp];
    var min := MinKey(r);
    InsertedSpec(pathBacklog, seqNr, timestamp);
    if min.Some? {
      OldestUnique(r, min.value);
      oldestSn, total := min.value, |r|;
    } else {
      oldestSn, total := EMPTY_BACKLOG_SYMBOL, EMPTY_BACKLOG_SYMBOL;
    }
  }

  /** The branch of `backlog_remove` taken when the key is present: drop it, then read back
      the minimum key and the size to report, or the sentinel pair when nothing is left. */
  method RemoveFrom(pathBacklog: PathBacklog, seqNr: nat, timestamp: nat)
    returns (r: PathBacklog, oldestSn: nat, total: nat)
    requires seqNr in pathBacklog
    ensures r == pathBacklog - {seqNr}
    ensures |r| == |pathBacklog| - 1
    ensures r == map[] ==> oldestSn == EMPTY_BACKLOG_SYMBOL && total == 0
    ensures r != map[] ==> oldestSn in r && forall k | k in r :: oldestSn <= k
    ensures BacklogReport(oldestSn, timestamp, total) == Report(r, timestamp)
  {
    r := pathBacklog - {seqNr};
    assert r.Keys == pathBacklog.Keys - {seqNr};
    var min := MinKey(r);
    OldestIsMinimum(r);
    if min.Some? {
      oldestSn, total := min.value, |r|;
    } else {
      oldestSn, total := EMPTY_BACKLOG_SYMBOL, EMPTY_BACKLOG_SYMBOL;
    }
  }

  /** The backlogs of all paths, and the gauge readings they feed for each label set. */
  class Backlogs {
    var backlogs: map<PathIdentifier, PathBacklog>
    var reports: map<PathLabels, BacklogReport>

    /** Every inner backlog stays within BACKLOG_RESET_THRESHOLD + 1 entries. */
    ghost predicate Valid()
      reads this
    {
      forall p | p in backlogs :: |backlogs[p]| <= BACKLOG_RESET_THRESHOLD + 1
    }

    constructor ()
      ensures Valid()
      ensures backlogs == map[] && reports == map[]
    {
      backlogs, reports := map[], map[];
    }

    /** `backlog_insert`: a SendPacket event for `seqNr` was observed on the path at unix
        time `timestamp`. The path's backlog becomes `Inserted` of the old one (an empty one
        if the path is new), no other path changes, and the label set's gauges report the
        new backlog's minimum key, the time and its size. */
    method BacklogInsert(seqNr: nat, chainId: string, channelId: string, portId: string,
                         counterpartyChainId: string, timestamp: nat)
      requires Valid()
      modifies this
      ensures Valid()
      ensures var path := PathIdentifier(chainId, channelId, portId);
              var labels := PathLabels(chainId, counterpartyChainId, channelId, portId);
              && backlogs == old(backlogs)[path := Inserted(BacklogOf(old(backlogs), path), seqNr, timestamp)]
              && reports == old(reports)[labels := Report(backlogs[path], timestamp)]
    {
      var path := PathIdentifier(chainId, channelId, portId);
      var labels := PathLabels(chainId, counterpartyChainId, channelId, portId);
      var oldestSn: nat, total: nat;
      InsertedSpec(BacklogOf(backlogs, path), seqNr, timestamp);
      if path in backlogs {
        var pathBacklog;
        pathBacklog, oldestSn, total := InsertInto(backlogs[path], seqNr, timestamp);
        backlogs := backlogs[path := pathBacklog];
      } else {
        backlogs := backlogs[path := map[seqNr := timestamp]];
        FirstInsert(seqNr, timestamp);
        oldestSn, total := seqNr, 1;
      }
      reports := reports[labels := BacklogReport(oldestSn, timestamp, total)];
    }

    /** `backlog_remove`: an acknowledgement or timeout for `seqNr` was observed at unix time
        `timestamp`. If the path holds `seqNr`, exactly that key goes and the label set's
        gauges report the new minimum (the sentinel if none is left), the time and the new
        size; otherwise nothing at all changes. */
    method BacklogRemove(seqNr: nat, chainId: string, channelId: string, portId: string,
                         counterpartyChainId: string, timestamp: nat)
      requires Valid()
      modifies this
      ensures Valid()
      ensures var path := PathIdentifier(chainId, channelId, portId);
              var labels := PathLabels(chainId, counterpartyChainId, channelId, portId);
              if path in old(backlogs) && seqNr in old(backlogs)[path] then
                && backlogs == old(backlogs)[path := old(backlogs)[path] - {seqNr}]
                && reports == old(reports)[labels := Report(backlogs[path], timestamp)]
              else
                backlogs == old(backlogs) && reports == old(reports)
    {
      var path := PathIdentifier(chainId, channelId, portId);
      var labels := PathLabels(chainId, counterpartyChainId, channelId, portId);
      if path in backlogs && seqNr in backlogs[path] {
        var pathBacklog, oldestSn, total := RemoveFrom(backlogs[path], seqNr, timestamp);
        backlogs := backlogs[path := pathBacklog];
        reports := reports[labels := BacklogReport(oldestSn, timestamp, total)];
      }
    }

    /** `update_backlog`: reconcile the path with the sequences a chain query reports as
        pending, at unix time `timestamp`. An empty list removes the path's keys one at a
        time through `BacklogRemove`, leaving the path empty with the sentinel as oldest and
        size zero (a path never created, or already empty, is left untouched). A non-empty
        list drops the path's backlog and inserts every sequence through `BacklogInsert`. */
    method UpdateBacklog(sequences: seq<nat>, chainId: string, channelId: string, portId: string,
                         counterpartyChainId: string, timestamp: nat)
      requires Valid()
      modifies this
      ensures Valid()
      ensures var path := PathIdentifier(chainId, channelId, portId);
              var labels := PathLabels(chainId, counterpartyChainId, channelId, portId);
              if sequences == [] then
                if path in old(backlogs) && old(backlogs)[path] != map[] then
                  && backlogs == old(backlogs)[path := map[]]
                  && reports == old(reports)[labels := BacklogReport(EMPTY_BACKLOG_SYMBOL, timestamp, 0)]
                else
                  backlogs == old(backlogs) && reports == old(reports)
              else
                && backlogs == old(backlogs)[path := InsertAll(map[], sequences, timestamp)]
                && reports == old(reports)[labels := Report(backlogs[path], timestamp)]
    {
      if sequences == [] {
        var path := PathIdentifier(chainId, channelId, portId);
        if path in backlogs {
          DrainBacklog(chainId, channelId, portId, counterpartyChainId, timestamp);
        }
      } else {
        ReplaceBacklog(sequences, chainId, channelId, portId, counterpartyChainId, timestamp);
      }
    }

    /** The empty-list branch of `update_backlog`: every key the path holds when the call
        starts is removed through `BacklogRemove`, in no particular order. */
    method DrainBacklog(chainId: string, channelId: string, portId: string,
                        counterpartyChainId: string, timestamp: nat)
      requires Valid()
      requires PathIdentifier(chainId, channelId, portId) in backlogs
      modifies this
      ensures Valid()
      ensures var path := PathIdentifier(chainId, channelId, portId);
              var labels := PathLabels(chainId, counterpartyChainId, channelId, portId);
              if old(backlogs)[path] != map[] then
                && backlogs == old(backlogs)[path := map[]]
                && reports == old(reports)[labels := BacklogReport(EMPTY_BACKLOG_SYMBOL, timestamp, 0)]
              else
                backlogs == old(backlogs) && reports == old(reports)
    {
      var path := PathIdentifier(chainId, channelId, portId);
      ghost var labels := PathLabels(chainId, counterpartyChainId, channelId, portId);
      ghost var original := backlogs[path];
      var currentKeys := backlogs[path].Keys;
      assert original == map k | k in currentKeys :: original[k];
      assert old(backlogs)[path := original] == old(backlogs);
      while currentKeys != {}
        invariant Valid()
        invariant currentKeys <= original.Keys
        invariant backlogs == old(backlogs)[path := map k | k in currentKeys :: original[k]]
        invariant reports == if currentKeys == original.Keys then old(reports)
                             else old(reports)[labels := Report(backlogs[path], timestamp)]
        decreases currentKeys
      {
        var key :| key in currentKeys;
        RemoveNext(old(backlogs), old(reports), original, currentKeys, key,
                   chainId, channelId, portId, counterpartyChainId, timestamp);
        currentKeys := currentKeys - {key};
      }
      assert backlogs[path] == map[];
      OldestIsMinimum(map[]);
      if original == map[] {
        assert original.Keys == {};
      } else {
        assert original.Keys != {};
      }
    }

    /** One iteration of `DrainBacklog`: `BacklogRemove` of a key still present shrinks the
        path's backlog by that key and reports on what is left. */
    method RemoveNext(ghost before: map<PathIdentifier, PathBacklog>, ghost reportsBefore: map<PathLabels, BacklogReport>,
                      ghost original: PathBacklog, ghost keys: set<nat>, key: nat,
                      chainId: string, channelId: string, portId: string,
                      counterpartyChainId: string, timestamp: nat)
      requires Valid()
      requires key in keys && keys <= original.Keys
      requires backlogs == before[PathIdentifier(chainId, channelId, portId) := map k | k in keys :: original[k]]
      requires reports == if keys == original.Keys then reportsBefore
                          else reportsBefore[PathLabels(chainId, counterpartyChainId, channelId, portId) :=
                                               Report(backlogs[PathIdentifier(chainId, channelId, portId)], timestamp)]
      modifies this
      ensures Valid()
      ensures var path := PathIdentifier(chainId, channelId, portId);
              var labels := PathLabels(chainId, counterpartyChainId, channelId, portId);
              && backlogs == before[path := map k | k in keys - {key} :: original[k]]
              && reports == reportsBefore[labels := Report(backlogs[path], timestamp)]
    {
      DrainStep(before, PathIdentifier(chainId, channelId, portId), original, keys, key);
      BacklogRemove(key, chainId, channelId, portId, counterpartyChainId, timestamp);
    }

    /** One iteration of `DrainBacklog`: removing a key still present from the partly drained
        backlog leaves the original restricted to the keys not yet removed. */
    static lemma DrainStep(before: map<PathIdentifier, PathBacklog>, path: PathIdentifier,
                            original: PathBacklog, keys: set<nat>, key: nat)
      requires key in keys && keys <= original.Keys
      ensures var current := before[path := map k | k in keys :: original[k]];
              && path in current && key in current[path]
              && current[path := current[path] - {key}] == before[path := map k | k in keys - {key} :: original[k]]
    {
      var current := before[path := map k | k in keys :: original[k]];
      var remaining := map k | k in keys - {key} :: original[k];
      assert current[path] - {key} == remaining;
      assert current[path := remaining] == before[path := remaining];
    }

    /** The non-empty branch of `update_backlog`: the path's backlog is dropped and every
        supplied sequence is inserted, in order, through `BacklogInsert`. */
    method ReplaceBacklog(sequences: seq<nat>, chainId: string, channelId: string, portId: string,
                          counterpartyChainId: string, timestamp: nat)
      requires Valid()
      requires sequences != []
      modifies this
      ensures Valid()
      ensures var path := PathIdentifier(chainId, channelId, portId);
              var labels := PathLabels(chainId, counterpartyChainId, channelId, portId);
              && backlogs == old(backlogs)[path := InsertAll(map[], sequences, timestamp)]
              && reports == old(reports)[labels := Report(backlogs[path], timestamp)]
    {
      var path := PathIdentifier(chainId, channelId, portId);
      ghost var labels := PathLabels(chainId, counterpartyChainId, channelId, portId);
      backlogs := backlogs - {path};
      ghost var rest := backlogs;
      InsertNext(rest, old(reports), sequences, 0, chainId, channelId, portId, counterpartyChainId, timestamp);
      var i := 1;
      while i < |sequences|
        invariant 1 <= i <= |sequences|
        invariant Valid()
        invariant backlogs == rest[path := InsertAll(map[], sequences[..i], timestamp)]
        invariant reports == old(reports)[labels := Report(InsertAll(map[], sequences[..i], timestamp), timestamp)]
      {
        InsertNext(rest, old(reports), sequences, i, chainId, channelId, portId, counterpartyChainId, timestamp);
        i := i + 1;
      }
      ReplaceDone(old(backlogs), path, sequences, timestamp);
    }

    /** One iteration of `ReplaceBacklog`: `BacklogInsert` of the next supplied sequence
        extends the rebuilt backlog by that sequence and reports on the result. */
    method InsertNext(ghost rest: map<PathIdentifier, PathBacklog>, ghost before: map<PathLabels, BacklogReport>,
                      sequences: seq<nat>, i: nat,
                      chainId: string, channelId: string, portId: string,
                      counterpartyChainId: string, timestamp: nat)
      requires Valid()
      requires i < |sequences|
      requires PathIdentifier(chainId, channelId, portId) !in rest
      requires backlogs == if i == 0 then rest
                           else rest[PathIdentifier(chainId, channelId, portId) := InsertAll(map[], sequences[..i], timestamp)]
      requires reports == if i == 0 then before
                          else before[PathLabels(chainId, counterpartyChainId, channelId, portId) :=
                                        Report(InsertAll(map[], sequences[..i], timestamp), timestamp)]
      modifies this
      ensures Valid()
      ensures var path := PathIdentifier(chainId, channelId, portId);
              var labels := PathLabels(chainId, counterpartyChainId, channelId, portId);
              && backlogs == rest[path := InsertAll(map[], sequences[..i + 1], timestamp)]
              && reports == before[labels := Report(InsertAll(map[], sequences[..i + 1], timestamp), timestamp)]
    {
      ReplaceStep(rest, PathIdentifier(chainId, channelId, portId), backlogs, sequences, i, timestamp);
      BacklogInsert(sequences[i], chainId, channelId, portId, counterpartyChainId, timestamp);
    }

    /** After the last iteration of `ReplaceBacklog` the whole list has been inserted and
        every other path is as it was. */
    static lemma ReplaceDone(before: map<PathIdentifier, PathBacklog>, path: PathIdentifier,
                             sequences: seq<nat>, ts: nat)
      ensures (before - {path})[path := InsertAll(map[], sequences[..|sequences|], ts)]
           == before[path := InsertAll(map[], sequences, ts)]
    {
      assert sequences[..|sequences|] == sequences;
    }

    /** One iteration of `ReplaceBacklog`: inserting the next sequence into the partly
        rebuilt backlog extends the prefix that has been inserted. */
    static lemma ReplaceStep(rest: map<PathIdentifier, PathBacklog>, path: PathIdentifier,
                             current: map<PathIdentifier, PathBacklog>, sequences: seq<nat>,
                             i: nat, ts: nat)
      requires path !in rest
      requires i < |sequences|
      requires current == if i == 0 then rest else rest[path := InsertAll(map[], sequences[..i], ts)]
      ensures BacklogOf(current, path) == InsertAll(map[], sequences[..i], ts)
      ensures current[path := Inserted(BacklogOf(current, path), sequences[i], ts)]
           == rest[path := InsertAll(map[], sequences[..i + 1], ts)]
    {
      assert sequences[..i + 1][..i] == sequences[..i];
    }
  }
}

/** The worked examples of the backlog's own tests, on one path of chain `chain-test`,
    channel `channel-0`, port `transfer`, counterparty `counterpartychain-test`. */
module BacklogExamples {
  import opened Identifiers
  import opened Backlog

  const Labels := PathLabels("chain-test", "counterpartychain-test", "channel-0", "transfer")

  const Path := PathIdentifier("chain-test", "channel-0", "transfer")

  /** One insert into a single-path state whose backlog is below the eviction threshold. */
  lemma InsertStep(b: map<PathIdentifier, PathBacklog>, m: PathBacklog, k: nat, ts: nat)
    requires b == map[Path := m] && |m| <= BACKLOG_RESET_THRESHOLD
    ensures b[Path := Inserted(BacklogOf(b, Path), k, ts)] == map[Path := m[k := ts]]
  {
    InsertedSpec(m, k, ts);
  }

  /** Insert sequences 1 to 5 on a fresh state. */
  method InsertOneToFive(state: Backlogs, ts: nat)
    requires state.Valid() && state.backlogs == map[]
    modifies state
    ensures state.Valid()
    ensures state.backlogs == map[Path := map[1 := ts, 2 := ts, 3 := ts, 4 := ts, 5 := ts]]
  {
    ghost var m0: PathBacklog := map[];
    ghost var m1 := m0[1 := ts];
    ghost var m2 := m1[2 := ts];
    ghost var m3 := m2[3 := ts];
    ghost var m4 := m3[4 := ts];
    assert |m1| == 1 && |m2| == 2 && |m3| == 3 && |m4| == 4;
    FirstInsert(1, ts);
    state.BacklogInsert(1, "chain-test", "channel-0", "transfer", "counterpartychain-test", ts);
    InsertStep(state.backlogs, m1, 2, ts);
    state.BacklogInsert(2, "chain-test", "channel-0", "transfer", "counterpartychain-test", ts);
    InsertStep(state.backlogs, m2, 3, ts);
    state.BacklogInsert(3, "chain-test", "channel-0", "transfer", "counterpartychain-test", ts);
    InsertStep(state.backlogs, m3, 4, ts);
    state.BacklogInsert(4, "chain-test", "channel-0", "transfer", "counterpartychain-test", ts);
    InsertStep(state.backlogs, m4, 5, ts);
    state.BacklogInsert(5, "chain-test", "channel-0", "transfer", "counterpartychain-test", ts);
  }

  /** One removal of a present key from a single-path state. */
  lemma RemoveStep(b: map<PathIdentifier, PathBacklog>, m: PathBacklog, k: nat)
    requires b == map[Path := m] && k in m
    ensures Path in b && k in b[Path]
    ensures b[Path := b[Path] - {k}] == map[Path := m - {k}]
  {
  }

  /** What is left of 1 to 5 after removing 3 and 1, and what the gauges report for it. */
  lemma TwoFourFive(ts: nat)
    ensures map[1 := ts, 2 := ts, 3 := ts, 4 := ts, 5 := ts] - {3} - {1} == map[2 := ts, 4 := ts, 5 := ts]
    ensures Report(map[2 := ts, 4 := ts, 5 := ts], ts) == BacklogReport(2, ts, 3)
  {
    var m5 := map[1 := ts, 2 := ts, 3 := ts, 4 := ts, 5 := ts];
    var left := map[2 := ts, 4 := ts, 5 := ts];
    assert (m5 - {3} - {1}).Keys == left.Keys;
    assert forall k | k in left :: (m5 - {3} - {1})[k] == left[k];
    OldestUnique(left, 2);
    assert left.Keys == {2, 4, 5};
  }

  /** `insert_remove_backlog`: after inserting 1 to 5 and removing 3 and then 1, the path
      reports three pending packets, the oldest being 2. */
  method InsertRemoveBacklog(ts: nat) returns (report: BacklogReport)
    ensures report == BacklogReport(2, ts, 3)
  {
    var state := new Backlogs();
    InsertOneToFive(state, ts);
    ghost var m5 := map[1 := ts, 2 := ts, 3 := ts, 4 := ts, 5 := ts];
    RemoveStep(state.backlogs, m5, 3);
    state.BacklogRemove(3, "chain-test", "channel-0", "transfer", "counterpartychain-test", ts);
    RemoveStep(state.backlogs, m5 - {3}, 1);
    state.BacklogRemove(1, "chain-test", "channel-0", "transfer", "counterpartychain-test", ts);
    TwoFourFive(ts);
    report := state.reports[Labels];
  }

  /** `update_backlog`: after inserting 1 to 5, reconciling with `[5]` leaves one pending
      packet, sequence 5. */
  method UpdateBacklogToFive(ts: nat) returns (report: BacklogReport)
    ensures report == BacklogReport(5, ts, 1)
  {
    var state := new Backlogs();
    InsertOneToFive(state, ts);
    state.UpdateBacklog([5], "chain-test", "channel-0", "transfer", "counterpartychain-test", ts);
    assert [5][..0] == [];
    FirstInsert(5, ts);
    report := state.reports[Labels];
  }

  /** `update_backlog_empty`: after inserting 1 to 5, reconciling with an empty list leaves
      no pending packet and the sentinel as oldest sequence. */
  method UpdateBacklogToEmpty(ts: nat) returns (report: BacklogReport)
    ensures report == BacklogReport(EMPTY_BACKLOG_SYMBOL, ts, 0)
  {
    var state := new Backlogs();
    InsertOneToFive(state, ts);
    state.UpdateBacklog([], "chain-test", "channel-0", "transfer", "counterpartychain-test", ts);
    report := state.reports[Labels];
  }
}
