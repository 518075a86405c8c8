/** Turning cumulative counters into per-proxy traffic records (internal/agent/traffic_reporter.go). */
module TrafficReporting {
  import opened Common
  import opened Counters

  datatype TrafficRecord = TrafficRecord(userID: int, proxyID: Option<int>, upload: int, download: int)

  datatype AggregateKey = AggregateKey(userID: int, proxyID: int)

  function KeyOf(stat: Stat): AggregateKey {
    AggregateKey(stat.user, stat.proxy)
  }

  ghost function Part(r: TrafficRecord, direction: Direction): int {
    if direction.Uplink? then r.upload else r.download
  }

  ghost predicate RecordFor(r: TrafficRecord, key: AggregateKey) {
    r.userID == key.userID && r.proxyID == Some(key.proxyID)
  }

  function RecordKey(r: TrafficRecord): AggregateKey
    requires r.proxyID.Some?
  {
    AggregateKey(r.userID, r.proxyID.value)
  }

  ghost predicate HasRecord(records: seq<TrafficRecord>, key: AggregateKey) {
    exists i | 0 <= i < |records| :: RecordFor(records[i], key)
  }

  /** `records` says, key by key and without repetition, what the deltas `d` add up to. */
  ghost predicate Aggregates(records: seq<TrafficRecord>, d: Counters) {
    && (forall i | 0 <= i < |records| ::
         && records[i].proxyID.Some?
         && records[i].upload == Total(d, Stat(records[i].userID, records[i].proxyID.value, Uplink))
         && records[i].download == Total(d, Stat(records[i].userID, records[i].proxyID.value, Downlink))
         && (records[i].upload != 0 || records[i].download != 0))
    && (forall i, j | 0 <= i < j < |records| ::
         records[i].userID != records[j].userID || records[i].proxyID != records[j].proxyID)
    && (forall stat: Stat | Total(d, stat) != 0 :: HasRecord(records, KeyOf(stat)))
  }

  /** What a list of records adds to one statistic. */
  ghost function RecordSum(records: seq<TrafficRecord>, stat: Stat): int {
    if records == [] then 0
    else
      var r := records[|records| - 1];
      RecordSum(records[..|records| - 1], stat) +
      (if RecordFor(r, KeyOf(stat)) then Part(r, stat.direction) else 0)
  }

  lemma {:induction false} RecordSumNone(records: seq<TrafficRecord>, stat: Stat)
    requires !HasRecord(records, KeyOf(stat))
    ensures RecordSum(records, stat) == 0
  {
    if records != [] {
      var front := records[..|records| - 1];
      assert !RecordFor(records[|records| - 1], KeyOf(stat));
      assert forall i | 0 <= i < |front| :: front[i] == records[i];
      RecordSumNone(front, stat);
    }
  }

  lemma {:induction false} RecordSumOne(records: seq<TrafficRecord>, i: nat, stat: Stat)
    requires i < |records| && RecordFor(records[i], KeyOf(stat))
    requires forall j | 0 <= j < |records| && j != i :: !RecordFor(records[j], KeyOf(stat))
    ensures RecordSum(records, stat) == Part(records[i], stat.direction)
  {
    var front := records[..|records| - 1];
    assert forall j | 0 <= j < |front| :: front[j] == records[j];
    if i == |records| - 1 {
      RecordSumNone(front, stat);
    } else {
      RecordSumOne(front, i, stat);
    }
  }

  /** The records carry each statistic exactly as the deltas do: nothing lost, nothing twice. */
  lemma RecordsCarryDeltas(records: seq<TrafficRecord>, d: Counters, stat: Stat)
    requires Aggregates(records, d)
    ensures RecordSum(records, stat) == Total(d, stat)
  {
    if HasRecord(records, KeyOf(stat)) {
      var i :| 0 <= i < |records| && RecordFor(records[i], KeyOf(stat));
      RecordSumOne(records, i, stat);
      assert stat == Stat(stat.user, stat.proxy, stat.direction);
    } else {
      RecordSumNone(records, stat);
    }
  }

  lemma AggregatesContains(a: seq<TrafficRecord>, b: seq<TrafficRecord>, d: Counters, i: nat)
    requires Aggregates(a, d) && Aggregates(b, d) && i < |a|
    ensures a[i] in b
  {
    var r := a[i];
    var up := Stat(r.userID, r.proxyID.value, Uplink);
    var down := Stat(r.userID, r.proxyID.value, Downlink);
    assert HasRecord(b, KeyOf(if r.upload != 0 then up else down));
    var key := AggregateKey(r.userID, r.proxyID.value);
    assert HasRecord(b, key);
    var j :| 0 <= j < |b| && RecordFor(b[j], key);
    assert b[j] == r;
  }

  /** Whatever order the counter map and the aggregation map were walked in, the records are the same. */
  lemma AggregatesUnique(a: seq<TrafficRecord>, b: seq<TrafficRecord>, d: Counters)
    requires Aggregates(a, d) && Aggregates(b, d)
    ensures multiset(a) == multiset(b)
  {
    assert Distinct(a) && Distinct(b);
    forall r ensures multiset(a)[r] == multiset(b)[r] {
      DistinctCount(a, r);
      DistinctCount(b, r);
      if r in a {
        var i :| 0 <= i < |a| && a[i] == r;
        AggregatesContains(a, b, d, i);
      }
      if r in b {
        var i :| 0 <= i < |b| && b[i] == r;
        AggregatesContains(b, a, d, i);
      }
    }
  }

  lemma {:induction false} DistinctCount<T(!new)>(s: seq<T>, x: T)
    requires Distinct(s)
    ensures multiset(s)[x] == if x in s then 1 else 0
  {
    if s != [] {
      var front := s[..|s| - 1];
      DistinctCount(front, x);
      assert s == front + [s[|s| - 1]];
      if x in front {
        var i :| 0 <= i < |front| && front[i] == x;
        assert s[i] == x;
      }
    }
  }

  function AddDelta(aggregated: map<AggregateKey, TrafficRecord>, stat: Stat, delta: int)
    : map<AggregateKey, TrafficRecord>
  {
    var key := KeyOf(stat);
    var record := if key in aggregated then aggregated[key]
                  else TrafficRecord(key.userID, Some(key.proxyID), 0, 0);
    aggregated[key := if stat.direction.Uplink? then record.(upload := record.upload + delta)
                      else record.(download := record.download + delta)]
  }

  ghost function Tally(aggregated: map<AggregateKey, TrafficRecord>, stat: Stat): int {
    if KeyOf(stat) in aggregated then Part(aggregated[KeyOf(stat)], stat.direction) else 0
  }

  /** One turn of the aggregation loop: names that are not user counters and zero deltas are skipped. */
  function Absorb(aggregated: map<AggregateKey, TrafficRecord>, name: string, delta: int)
    : map<AggregateKey, TrafficRecord>
  {
    var parsed := StatOf(name);
    if parsed.None? || delta == 0 then aggregated else AddDelta(aggregated, parsed.value, delta)
  }

  ghost predicate Holds(aggregated: map<AggregateKey, TrafficRecord>, names: set<string>, d: Counters, stat: Stat) {
    Tally(aggregated, stat) == Sum(names, d, stat)
  }

  lemma AddDeltaTally(aggregated: map<AggregateKey, TrafficRecord>, at: Stat, delta: int, stat: Stat)
    ensures Tally(AddDelta(aggregated, at, delta), stat) == Tally(aggregated, stat) + (if stat == at then delta else 0)
  {
    if KeyOf(stat) == KeyOf(at) && stat.direction == at.direction {
      assert stat == at;
    }
  }

  lemma AbsorbKeepsSums(aggregated: map<AggregateKey, TrafficRecord>, name: string, done: set<string>, d: Counters)
    requires name !in done && name in d
    requires forall k | k in aggregated :: RecordFor(aggregated[k], k)
    requires forall stat :: Holds(aggregated, done, d, stat)
    ensures forall stat :: Holds(Absorb(aggregated, name, d[name]), done + {name}, d, stat)
    ensures forall k | k in Absorb(aggregated, name, d[name]) :: RecordFor(Absorb(aggregated, name, d[name])[k], k)
  {
    forall stat ensures Holds(Absorb(aggregated, name, d[name]), done + {name}, d, stat) {
      assert Holds(aggregated, done, d, stat);
      SumPick(done + {name}, name, d, stat);
      assert done + {name} - {name} == done;
      if StatOf(name).Some? {
        AddDeltaTally(aggregated, StatOf(name).value, d[name], stat);
      }
    }
  }

  // ---- There is always a record list ----

  lemma {:induction false} SumOfNone(names: set<string>, c: Counters, stat: Stat)
    requires forall n | n in names :: !Measures(n, stat)
    ensures Sum(names, c, stat) == 0
  {
    if names != {} {
      var n :| n in names;
      SumPick(names, n, c, stat);
      SumOfNone(names - {n}, c, stat);
    }
  }

  ghost function KeysOf(d: Counters): set<AggregateKey> {
    set n | n in d && StatOf(n).Some? :: KeyOf(StatOf(n).value)
  }

  ghost predicate AggregatesOn(records: seq<TrafficRecord>, d: Counters, keys: set<AggregateKey>) {
    && (forall i | 0 <= i < |records| ::
         && records[i].proxyID.Some? && RecordKey(records[i]) in keys
         && records[i].upload == Total(d, Stat(records[i].userID, records[i].proxyID.value, Uplink))
         && records[i].download == Total(d, Stat(records[i].userID, records[i].proxyID.value, Downlink))
         && (records[i].upload != 0 || records[i].download != 0))
    && (forall i, j | 0 <= i < j < |records| ::
         records[i].userID != records[j].userID || records[i].proxyID != records[j].proxyID)
    && (forall stat: Stat | Total(d, stat) != 0 && KeyOf(stat) in keys :: HasRecord(records, KeyOf(stat)))
  }

  lemma {:induction false} RecordsOver(d: Counters, keys: set<AggregateKey>) returns (records: seq<TrafficRecord>)
    ensures AggregatesOn(records, d, keys)
  {
    hide Total;
    if keys == {} {
      records := [];
    } else {
      var key :| key in keys;
      var rest := RecordsOver(d, keys - {key});
      var up, down := Stat(key.userID, key.proxyID, Uplink), Stat(key.userID, key.proxyID, Downlink);
      var r := TrafficRecord(key.userID, Some(key.proxyID), Total(d, up), Total(d, down));
      records := if r.upload != 0 || r.download != 0 then rest + [r] else rest;
      forall stat: Stat | Total(d, stat) != 0 && KeyOf(stat) in keys ensures HasRecord(records, KeyOf(stat)) {
        if KeyOf(stat) == key {
          assert stat == if stat.direction.Uplink? then up else down;
          assert RecordFor(records[|records| - 1], key);
        } else {
          var i :| 0 <= i < |rest| && RecordFor(rest[i], KeyOf(stat));
          assert RecordFor(records[i], KeyOf(stat));
        }
      }
    }
  }

  lemma AggregatesExist(d: Counters) returns (records: seq<TrafficRecord>)
    ensures Aggregates(records, d)
  {
    records := RecordsOver(d, KeysOf(d));
    forall stat: Stat | Total(d, stat) != 0 ensures HasRecord(records, KeyOf(stat)) {
      if forall n | n in d :: !Measures(n, stat) {
        SumOfNone(d.Keys, d, stat);
      } else {
        var n :| n in d && Measures(n, stat);
        assert KeyOf(stat) in KeysOf(d);
      }
    }
  }

  class TrafficReporter {
    var lastCommitted: Counters

    constructor ()
      ensures lastCommitted == map[]
    {
      lastCommitted := map[];
    }

    /** `current` is the answer of Xray's statistics query, or None when the query failed. */
    method PrepareDelta(current: Option<Counters>)
      returns (r: Option<(Counters, seq<TrafficRecord>)>)
      ensures r.Some? <==> current.Some?
      ensures r.Some? ==> r.value.0 == current.value
      ensures r.Some? ==> Aggregates(r.value.1, Deltas(lastCommitted, current.value))
    {
      if current.None? {
        return None;
      }
      ghost var d := Deltas(lastCommitted, current.value);
      var aggregated := Accumulate(current.value);
      var records := Collect(aggregated);
      forall stat: Stat | Total(d, stat) != 0 ensures HasRecord(records, KeyOf(stat)) {
        assert Holds(aggregated, d.Keys, d, stat);
      }
      forall i | 0 <= i < |records|
        ensures records[i].upload == Total(d, Stat(records[i].userID, records[i].proxyID.value, Uplink))
        ensures records[i].download == Total(d, Stat(records[i].userID, records[i].proxyID.value, Downlink))
      {
        assert Holds(aggregated, d.Keys, d, Stat(records[i].userID, records[i].proxyID.value, Uplink));
        assert Holds(aggregated, d.Keys, d, Stat(records[i].userID, records[i].proxyID.value, Downlink));
      }
      return Some((current.value, records));
    }

    /** First loop: walks the counters in an arbitrary order and adds each delta to its record. */
    method Accumulate(counters: Counters) returns (aggregated: map<AggregateKey, TrafficRecord>)
      ensures forall k | k in aggregated :: RecordFor(aggregated[k], k)
      ensures var d := Deltas(lastCommitted, counters);
              forall stat :: Holds(aggregated, d.Keys, d, stat)
    {
      ghost var d := Deltas(lastCommitted, counters);
      aggregated := map[];
      var remaining := counters.Keys;
      ghost var done := {};
      while remaining != {}
        invariant done !! remaining && done + remaining == counters.Keys
        invariant forall k | k in aggregated :: RecordFor(aggregated[k], k)
        invariant forall stat :: Holds(aggregated, done, d, stat)
      {
        var name :| name in remaining;
        remaining := remaining - {name};
        var delta := counters[name] - Get(lastCommitted, name);
        if delta < 0 {
          delta := counters[name];
        }
        AbsorbKeepsSums(aggregated, name, done, d);
        done := done + {name};
        aggregated := Absorb(aggregated, name, delta);
      }
      assert done == d.Keys;
    }

    /** A nil snapshot changes nothing; any other replaces the committed counters as a whole. */
    method Commit(snapshot: Option<Counters>)
      modifies this
      ensures lastCommitted == if snapshot.Some? then snapshot.value else old(lastCommitted)
    {
      if snapshot.Some? {
        lastCommitted := snapshot.value;
      }
    }

    method RestoreCommittedCounters(counters: Counters)
      modifies this
      ensures lastCommitted == counters
    {
      lastCommitted := counters;
    }
  }

  ghost predicate Taken(r: TrafficRecord, aggregated: map<AggregateKey, TrafficRecord>, left: set<AggregateKey>) {
    && r.proxyID.Some?
    && RecordKey(r) in aggregated && RecordKey(r) !in left
    && r == aggregated[RecordKey(r)]
    && (r.upload != 0 || r.download != 0)
  }

  /** Second loop of PrepareDelta: keeps the records that carry something, in an arbitrary order. */
  method Collect(aggregated: map<AggregateKey, TrafficRecord>) returns (records: seq<TrafficRecord>)
    requires forall k | k in aggregated :: RecordFor(aggregated[k], k)
    ensures forall i | 0 <= i < |records| :: Taken(records[i], aggregated, {})
    ensures forall i, j | 0 <= i < j < |records| ::
              records[i].userID != records[j].userID || records[i].proxyID != records[j].proxyID
    ensures forall k | k in aggregated && (aggregated[k].upload != 0 || aggregated[k].download != 0) ::
              HasRecord(records, k)
  {
    records := [];
    var keys := aggregated.Keys;
    while keys != {}
      invariant keys <= aggregated.Keys
      invariant forall i | 0 <= i < |records| :: Taken(records[i], aggregated, keys)
      invariant forall i, j | 0 <= i < j < |records| ::
                  records[i].userID != records[j].userID || records[i].proxyID != records[j].proxyID
      invariant forall k | k in aggregated && k !in keys ::
                  HasRecord(records, k) || (aggregated[k].upload == 0 && aggregated[k].download == 0)
    {
      var key :| key in keys;
      keys := keys - {key};
      var record := aggregated[key];
      if record.upload != 0 || record.download != 0 {
        ghost var before := records;
        records := records + [record];
        assert RecordFor(records[|records| - 1], key);
        forall k | HasRecord(before, k) ensures HasRecord(records, k) {
          var i :| 0 <= i < |before| && RecordFor(before[i], k);
          assert RecordFor(records[i], k);
        }
      }
    }
  }
}
