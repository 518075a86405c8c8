/** The content-derived identity of a traffic batch (internal/agent/agent.go, buildTrafficBatchID).
    SHA-256 is taken to be injective and JSON to be lossless, so the identity is the document that is hashed. */
module BatchIdentity {
  import opened Common
  import opened Counters
  import opened TrafficReporting
  import opened Sorting

  datatype BatchRecord = BatchRecord(userID: int, proxyID: int, upload: int, download: int)
  datatype BatchCounter = BatchCounter(name: string, value: int)
  datatype BatchID = BatchID(nodeID: int, records: seq<BatchRecord>, counters: seq<BatchCounter>)

  function Normalize(r: TrafficRecord): BatchRecord {
    BatchRecord(r.userID, if r.proxyID.Some? then r.proxyID.value else 0, r.upload, r.download)
  }

  function NormalizeAll(records: seq<TrafficRecord>): seq<BatchRecord> {
    seq(|records|, i requires 0 <= i < |records| => Normalize(records[i]))
  }

  predicate RecordLess(a: BatchRecord, b: BatchRecord) {
    if a.userID != b.userID then a.userID < b.userID
    else if a.proxyID != b.proxyID then a.proxyID < b.proxyID
    else if a.upload != b.upload then a.upload < b.upload
    else a.download < b.download
  }

  predicate StringLess(a: string, b: string) {
    b != [] && (a == [] || a[0] < b[0] || (a[0] == b[0] && StringLess(a[1..], b[1..])))
  }

  predicate CounterLess(a: BatchCounter, b: BatchCounter) {
    StringLess(a.name, b.name)
  }

  lemma {:induction false} StringLessTransitive(a: string, b: string, c: string)
    requires StringLess(a, b) && StringLess(b, c)
    ensures StringLess(a, c)
  {
    if a != [] && a[0] == b[0] == c[0] {
      StringLessTransitive(a[1..], b[1..], c[1..]);
    }
  }

  lemma {:induction false} StringLessIrreflexive(a: string)
    ensures !StringLess(a, a)
  {
    if a != [] { StringLessIrreflexive(a[1..]); }
  }

  lemma {:induction false} StringLessTotal(a: string, b: string)
    requires a != b
    ensures StringLess(a, b) || StringLess(b, a)
  {
    if a != [] && b != [] && a[0] == b[0] {
      assert a == [a[0]] + a[1..] && b == [b[0]] + b[1..];
      StringLessTotal(a[1..], b[1..]);
    }
  }

  lemma OrdersAreStrict()
    ensures StrictOrder(RecordLess) && StrictOrder(CounterLess)
  {
    forall x, y, z | CounterLess(x, y) && CounterLess(y, z) ensures CounterLess(x, z) {
      StringLessTransitive(x.name, y.name, z.name);
    }
    forall x ensures !CounterLess(x, x) {
      StringLessIrreflexive(x.name);
    }
  }

  ghost function Entries(c: Counters): set<BatchCounter> {
    set n | n in c :: BatchCounter(n, c[n])
  }

  /** A nil snapshot contributes an empty counter list, like an empty one. */
  ghost function CountersOf(snapshot: Option<Counters>): Counters {
    if snapshot.Some? then snapshot.value else map[]
  }

  /** The document that is hashed: both lists in their canonical order. */
  ghost predicate Identifies(id: BatchID, nodeID: int, snapshot: Option<Counters>, records: seq<TrafficRecord>) {
    && id.nodeID == nodeID
    && multiset(id.records) == multiset(NormalizeAll(records)) && Sorted(RecordLess, id.records)
    && multiset(id.counters) == multiset(Entries(CountersOf(snapshot))) && Sorted(CounterLess, id.counters)
  }

  lemma EntriesSeparated(list: seq<BatchCounter>, c: Counters)
    requires multiset(list) == multiset(Entries(c))
    ensures Separates(CounterLess, list)
  {
    forall x, y | x in list && y in list && x != y ensures CounterLess(x, y) || CounterLess(y, x) {
      assert x in multiset(list) && y in multiset(list);
      StringLessTotal(x.name, y.name);
    }
  }

  lemma NormalizeAllRemove(b: seq<TrafficRecord>, i: nat)
    requires i < |b|
    ensures multiset(NormalizeAll(b)) == multiset(NormalizeAll(b[..i] + b[i + 1..])) + multiset{Normalize(b[i])}
    ensures multiset(b[..i] + b[i + 1..]) == multiset(b) - multiset{b[i]}
  {
    assert b == b[..i] + ([b[i]] + b[i + 1..]);
    assert NormalizeAll(b) == NormalizeAll(b[..i]) + ([Normalize(b[i])] + NormalizeAll(b[i + 1..]));
    assert NormalizeAll(b[..i] + b[i + 1..]) == NormalizeAll(b[..i]) + NormalizeAll(b[i + 1..]);
  }

  lemma {:induction false} NormalizeAllPermutes(a: seq<TrafficRecord>, b: seq<TrafficRecord>)
    requires multiset(a) == multiset(b)
    ensures multiset(NormalizeAll(a)) == multiset(NormalizeAll(b))
    decreases |a|
  {
    assert |multiset(a)| == |multiset(b)|;
    if a != [] {
      assert a[0] in multiset(b);
      var i :| 0 <= i < |b| && b[i] == a[0];
      var restA, restB := a[..0] + a[0 + 1..], b[..i] + b[i + 1..];
      assert multiset(restA) == multiset(restB) by {
        NormalizeAllRemove(a, 0);
        NormalizeAllRemove(b, i);
      }
      NormalizeAllPermutes(restA, restB);
      NormalizeAllRemove(a, 0);
      NormalizeAllRemove(b, i);
    }
  }

  /** Listing the same records in any order, and walking the counters in any order, gives the same identity. */
  lemma IdentityIsCanonical(x: BatchID, y: BatchID, nodeID: int, snapshot: Option<Counters>,
                            a: seq<TrafficRecord>, b: seq<TrafficRecord>)
    requires multiset(a) == multiset(b)
    requires Identifies(x, nodeID, snapshot, a) && Identifies(y, nodeID, snapshot, b)
    ensures x == y
  {
    NormalizeAllPermutes(a, b);
    SortedRearrangementUnique(RecordLess, x.records, y.records);
    EntriesSeparated(x.counters, CountersOf(snapshot));
    SortedRearrangementUnique(CounterLess, x.counters, y.counters);
  }

  /** How many of the records report these bytes for this user and proxy; a missing proxy counts as proxy 0. */
  ghost function Reported(records: seq<TrafficRecord>, user: int, proxy: int, up: int, down: int): nat {
    if records == [] then 0
    else
      var n := |records| - 1;
      var r := records[n];
      Reported(records[..n], user, proxy, up, down) +
      if r.userID == user && r.upload == up && r.download == down && (r.proxyID == Some(proxy) || (r.proxyID == None && proxy == 0))
      then 1 else 0
  }

  lemma {:induction false} ReportedIs(records: seq<TrafficRecord>, user: int, proxy: int, up: int, down: int)
    ensures multiset(NormalizeAll(records))[BatchRecord(user, proxy, up, down)] == Reported(records, user, proxy, up, down)
  {
    if records != [] {
      var n := |records| - 1;
      ReportedIs(records[..n], user, proxy, up, down);
      assert NormalizeAll(records) == NormalizeAll(records[..n]) + [Normalize(records[n])];
    }
  }

  /** The same bytes are reported equally often for every user and proxy. */
  ghost predicate ReportTheSame(a: seq<TrafficRecord>, b: seq<TrafficRecord>) {
    forall user, proxy, up, down :: Reported(a, user, proxy, up, down) == Reported(b, user, proxy, up, down)
  }

  lemma SameReports(a: seq<TrafficRecord>, b: seq<TrafficRecord>)
    ensures multiset(NormalizeAll(a)) == multiset(NormalizeAll(b)) <==> ReportTheSame(a, b)
  {
    var x, y := multiset(NormalizeAll(a)), multiset(NormalizeAll(b));
    if x == y {
      forall user, proxy, up, down ensures Reported(a, user, proxy, up, down) == Reported(b, user, proxy, up, down) {
        ReportedIs(a, user, proxy, up, down);
        ReportedIs(b, user, proxy, up, down);
      }
    }
    if ReportTheSame(a, b) {
      forall r: BatchRecord ensures x[r] == y[r] {
        ReportedIs(a, r.userID, r.proxyID, r.upload, r.download);
        ReportedIs(b, r.userID, r.proxyID, r.upload, r.download);
      }
    }
  }

  /** Two batches share an identity exactly when they come from the same node, report the same bytes for the same users and
      proxies equally often, and rest on the same counter values. */
  lemma IdentityIsFaithful(x: BatchID, y: BatchID, nodeX: int, nodeY: int,
                           snapshotX: Option<Counters>, snapshotY: Option<Counters>,
                           a: seq<TrafficRecord>, b: seq<TrafficRecord>)
    requires Identifies(x, nodeX, snapshotX, a) && Identifies(y, nodeY, snapshotY, b)
    ensures x == y <==>
              nodeX == nodeY && CountersOf(snapshotX) == CountersOf(snapshotY) &&
              ReportTheSame(a, b)
  {
    SameReports(a, b);
    var cx, cy := CountersOf(snapshotX), CountersOf(snapshotY);
    if x == y {
      forall n, v ensures BatchCounter(n, v) in Entries(cx) <==> BatchCounter(n, v) in Entries(cy) {
        assert BatchCounter(n, v) in multiset(Entries(cx)) <==> BatchCounter(n, v) in multiset(Entries(cy));
      }
      assert forall n | n in cx :: BatchCounter(n, cx[n]) in Entries(cx);
      assert forall n | n in cy :: BatchCounter(n, cy[n]) in Entries(cy);
      assert cx == cy;
    }
    if nodeX == nodeY && cx == cy && multiset(NormalizeAll(a)) == multiset(NormalizeAll(b)) {
      SortedRearrangementUnique(RecordLess, x.records, y.records);
      EntriesSeparated(x.counters, cx);
      SortedRearrangementUnique(CounterLess, x.counters, y.counters);
    }
  }

  lemma {:induction false} Listed<T(!new)>(s: set<T>) returns (list: seq<T>)
    ensures multiset(list) == multiset(s)
  {
    if s == {} {
      list := [];
    } else {
      var x :| x in s;
      list := Listed(s - {x});
      assert multiset(s) == multiset(s - {x}) + multiset{x};
      list := list + [x];
    }
  }

  lemma IdentityExists(nodeID: int, snapshot: Option<Counters>, records: seq<TrafficRecord>) returns (id: BatchID)
    ensures Identifies(id, nodeID, snapshot, records)
  {
    OrdersAreStrict();
    var counters := Listed(Entries(CountersOf(snapshot)));
    SortSorted(RecordLess, NormalizeAll(records));
    EntriesSeparated(counters, CountersOf(snapshot));
    SortSorted(CounterLess, counters);
    id := BatchID(nodeID, Sort(RecordLess, NormalizeAll(records)), Sort(CounterLess, counters));
  }

  method BuildTrafficBatchID(nodeID: int, snapshot: Option<Counters>, records: seq<TrafficRecord>)
    returns (id: BatchID)
    ensures Identifies(id, nodeID, snapshot, records)
  {
    OrdersAreStrict();
    var normalized: seq<BatchRecord> := [];
    for i := 0 to |records|
      invariant normalized == NormalizeAll(records[..i])
    {
      normalized := normalized + [Normalize(records[i])];
    }
    assert records[..|records|] == records;
    SortSorted(RecordLess, normalized);

    var counters: seq<BatchCounter> := [];
    if snapshot.Some? {
      var names := snapshot.value.Keys;
      while names != {}
        invariant names <= snapshot.value.Keys
        invariant multiset(counters) == multiset(set n | n in snapshot.value && n !in names :: BatchCounter(n, snapshot.value[n]))
      {
        var name :| name in names;
        ghost var had := set n | n in snapshot.value && n !in names :: BatchCounter(n, snapshot.value[n]);
        names := names - {name};
        var entry := BatchCounter(name, snapshot.value[name]);
        assert (set n | n in snapshot.value && n !in names :: BatchCounter(n, snapshot.value[n])) == had + {entry};
        counters := counters + [entry];
      }
    }
    EntriesSeparated(counters, CountersOf(snapshot));
    SortSorted(CounterLess, counters);
    id := BatchID(nodeID, Sort(RecordLess, normalized), Sort(CounterLess, counters));
  }
}
