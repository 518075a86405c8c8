/** Runs that break a promise once one of its assumptions is dropped. Each is given for every counter
    name that belongs to some user; `CounterNames.EveryStatHasName` shows that every user has such names. */
module TrafficCounterexamples {
  import opened Common
  import opened Counters
  import opened TrafficReporting
  import opened BatchIdentity
  import opened TrafficAgent
  import opened TrafficProtocol
  import opened TrafficExactness

  // ---- A world with a single counter ----

  function Only(name: string, v: int): Counters {
    map[name := v]
  }

  function RecordOf(stat: Stat, v: int): TrafficRecord {
    if stat.direction.Uplink? then TrafficRecord(stat.user, Some(stat.proxy), v, 0)
    else TrafficRecord(stat.user, Some(stat.proxy), 0, v)
  }

  function BatchOf(node: int, name: string, stat: Stat, v: int, gained: int): Batch {
    var r := RecordOf(stat, gained);
    Batch(BatchID(node, [Normalize(r)], [BatchCounter(name, v)]), Some(Only(name, v)), [r])
  }

  function CallOf(b: Batch): Option<Prepared> {
    Some(Prepared(b.snapshot, b.records, Some(b.id)))
  }

  lemma OnlyTotal(name: string, stat: Stat, v: int)
    requires StatOf(name) == Some(stat)
    ensures forall other :: Total(Only(name, v), other) == if other == stat then v else 0
  {
    hide StatOf;
    forall other ensures Total(Only(name, v), other) == if other == stat then v else 0 {
      TotalSet(map[], name, v, other);
    }
  }

  lemma OneRecordSum(stat: Stat, v: int)
    ensures RecordSum([RecordOf(stat, v)], stat) == v
  {
    assert [RecordOf(stat, v)][..0] == [];
  }

  lemma OnlyBatch(node: int, name: string, stat: Stat, v: int, base: Counters)
    requires StatOf(name) == Some(stat)
    requires 0 <= Get(base, name) < v
    ensures Aggregates(BatchOf(node, name, stat, v, v - Get(base, name)).records, Deltas(base, Only(name, v)))
    ensures Identifies(BatchOf(node, name, stat, v, v - Get(base, name)).id, node, Some(Only(name, v)),
                       BatchOf(node, name, stat, v, v - Get(base, name)).records)
  {
    hide StatOf;
    var gained := v - Get(base, name);
    var b := BatchOf(node, name, stat, v, gained);
    assert Deltas(base, Only(name, v)) == Only(name, gained);
    OnlyTotal(name, stat, gained);
    forall other: Stat | Total(Only(name, gained), other) != 0 ensures HasRecord(b.records, KeyOf(other)) {
      assert RecordFor(b.records[0], KeyOf(other));
    }
    assert NormalizeAll(b.records) == [Normalize(b.records[0])];
    assert Entries(Only(name, v)) == {BatchCounter(name, v)};
  }

  /** The steps of a run that may count twice or lose bytes, in order. */
  ghost function Troubles(node: int, steps: seq<Step>): seq<Step> {
    if steps == [] then []
    else
      var front, s := steps[..|steps| - 1], steps[|steps| - 1];
      Troubles(node, front) +
      (if Losing(s) || (After(node, front).Some? && DoubleCounting(After(node, front).value, s)) then [s] else [])
  }

  lemma {:induction false} NoTroubles(node: int, steps: seq<Step>)
    ensures Troubles(node, steps) == [] <==> NoDoubleCounting(node, steps) && NoLosses(steps)
  {
    hide Do, Enabled, Losing, DoubleCounting;
    if steps != [] {
      var front := steps[..|steps| - 1];
      NoTroubles(node, front);
      assert forall i | 0 <= i < |front| :: front[i] == steps[i];
    }
  }

  lemma Go(node: int, steps: seq<Step>, w: World, s: Step) returns (more: seq<Step>)
    requires Reached(node, steps, w) && Enabled(w, s)
    ensures Reached(node, more, Do(w, s))
    ensures Troubles(node, more) == Troubles(node, steps) + (if Losing(s) || DoubleCounting(w, s) then [s] else [])
  {
    more := Extend(node, steps, w, s);
    assert more[..|more| - 1] == steps;
  }

  lemma SavedBatchIsLoaded(m: Memory, name: string, v: int)
    requires m.pending.Some? && m.pending.value.snapshot == Some(Only(name, v))
    ensures Load(Save(m)) == m
  {
    assert name in Only(name, v);
    SaveLoadRoundTrip(m);
  }

  /** From an idle agent with nothing pending: freeze one batch in memory. */
  lemma Freeze(node: int, steps: seq<Step>, w: World, name: string, stat: Stat, v: int) returns (more: seq<Step>)
    requires Reached(node, steps, w) && w.node == node && w.phase.Idle? && w.mem.pending.None? && w.xray == Only(name, v)
    requires StatOf(name) == Some(stat) && 0 <= Get(w.mem.committed, name) < v
    ensures Troubles(node, more) == Troubles(node, steps)
    ensures var b := BatchOf(node, name, stat, v, v - Get(w.mem.committed, name));
            Reached(node, more, w.(mem := w.mem.(pending := Some(b)), phase := SavingBatch(CallOf(b).value)))
  {
    hide StatOf, Total, Aggregates, Identifies, AddRecords, RecordOf, NormalizeAll, RecordSum;
    var b := BatchOf(node, name, stat, v, v - Get(w.mem.committed, name));
    OnlyBatch(node, name, stat, v, w.mem.committed);
    var m := w.mem.(pending := Some(b));
    assert PrepareEffect(w.mem, Some(w.xray), node, m, CallOf(b));
    more := Go(node, steps, w, Prepare(true, m, CallOf(b)));
  }

  /** Freeze, save and send one batch. */
  lemma FreezeSaveRequest(node: int, steps: seq<Step>, w: World, name: string, stat: Stat, v: int)
    returns (more: seq<Step>)
    requires Reached(node, steps, w) && w.node == node && w.phase.Idle? && w.mem.pending.None? && w.xray == Only(name, v)
    requires StatOf(name) == Some(stat) && 0 <= Get(w.mem.committed, name) < v
    ensures Troubles(node, more) == Troubles(node, steps)
    ensures var b := BatchOf(node, name, stat, v, v - Get(w.mem.committed, name));
            var m := w.mem.(pending := Some(b));
            Reached(node, more, w.(mem := m, file := Save(m), temp := NoTemp, phase := Calling(CallOf(b)),
                                   sent := w.sent + {b}, exposed := false))
  {
    hide StatOf, Total, Aggregates, Identifies, AddRecords, RecordOf, NormalizeAll, RecordSum;
    var b := BatchOf(node, name, stat, v, v - Get(w.mem.committed, name));
    var m := w.mem.(pending := Some(b));
    more := Freeze(node, steps, w, name, stat, v);
    var w1 := w.(mem := m, phase := SavingBatch(CallOf(b).value));
    more := Go(node, more, w1, WriteTemp(true));
    var w2 := w1.(temp := Complete(Save(m)));
    more := Go(node, more, w2, Rename);
    var w3 := w2.(file := Save(m), temp := NoTemp, phase := Calling(CallOf(b)), exposed := false);
    SavedBatchIsLoaded(m, name, v);
    more := Go(node, more, w3, Send);
  }

  /** Freeze, save and send one batch, and have the panel record it. */
  lemma FreezeSaveSend(node: int, steps: seq<Step>, w: World, name: string, stat: Stat, v: int) returns (more: seq<Step>)
    requires Reached(node, steps, w) && w.node == node && w.phase.Idle? && w.mem.pending.None? && w.xray == Only(name, v)
    requires StatOf(name) == Some(stat) && 0 <= Get(w.mem.committed, name) < v
    ensures Troubles(node, more) == Troubles(node, steps)
    ensures var b := BatchOf(node, name, stat, v, v - Get(w.mem.committed, name));
            var m := w.mem.(pending := Some(b));
            Reached(node, more, w.(mem := m, file := Save(m), temp := NoTemp, phase := Calling(CallOf(b)),
                                   sent := w.sent + {b}, exposed := false, applied := w.applied + {b.id},
                                   totals := if b.id in w.applied then w.totals else AddRecords(w.totals, b.records)))
  {
    hide StatOf, Total, AddRecords, BatchOf, Save;
    var b := BatchOf(node, name, stat, v, v - Get(w.mem.committed, name));
    var m := w.mem.(pending := Some(b));
    more := FreezeSaveRequest(node, steps, w, name, stat, v);
    var w4 := w.(mem := m, file := Save(m), temp := NoTemp, phase := Calling(CallOf(b)), sent := w.sent + {b}, exposed := false);
    more := Go(node, more, w4, PanelApply(b));
    assert b.id in w.applied ==> w.applied + {b.id} == w.applied;
  }

  /** From the start: `v` bytes pass on one counter. */
  lemma FirstTransfer(node: int, name: string, v: nat) returns (steps: seq<Step>)
    ensures Troubles(node, steps) == []
    ensures Reached(node, steps, Init(node).(xray := Only(name, v), moved := Only(name, v)))
  {
    assert Reached(node, [], Init(node));
    steps := Go(node, [], Init(node), Transfer(name, v));
    assert Init(node).xray[name := 0 + v] == Only(name, v);
  }

  lemma SingleBatchTotal(node: int, totals: map<Stat, int>, name: string, stat: Stat, v: int, gained: int)
    ensures Get(AddRecords(totals, BatchOf(node, name, stat, v, gained).records), stat) == Get(totals, stat) + gained
  {
    AddRecordsAdds(totals, BatchOf(node, name, stat, v, gained).records, stat);
    OneRecordSum(stat, gained);
  }

  /** A batch goes out unsaved, is recorded, and the agent crashes and starts from no file. */
  lemma UnsavedBatchLost(node: int, name: string, stat: Stat) returns (steps: seq<Step>)
    requires StatOf(name) == Some(stat)
    ensures Troubles(node, steps) == [Crash]
    ensures var b := BatchOf(node, name, stat, 10, 10);
            Reached(node, steps, Init(node).(xray := Only(name, 10), moved := Only(name, 10), sent := {b}, applied := {b.id},
                                 totals := AddRecords(map[], b.records), exposed := true))
  {
    hide StatOf, Total, AddRecords, BatchOf, Troubles, Reached, Save;
    var b := BatchOf(node, name, stat, 10, 10);
    steps := FirstTransfer(node, name, 10);
    var w1 := Init(node).(xray := Only(name, 10), moved := Only(name, 10));
    steps := Freeze(node, steps, w1, name, stat, 10);
    var w2 := w1.(mem := w1.mem.(pending := Some(b)), phase := SavingBatch(CallOf(b).value));
    steps := Go(node, steps, w2, BatchSaveFailed);
    var w3 := w2.(phase := Calling(CallOf(b)));
    steps := Go(node, steps, w3, Send);
    var w4 := w3.(sent := w3.sent + {b}, exposed := true);
    steps := Go(node, steps, w4, PanelApply(b));
    var w5 := w4.(applied := w4.applied + {b.id}, totals := AddRecords(map[], b.records));
    steps := Go(node, steps, w5, Crash);
    assert {} + {b} == {b} && {} + {b.id} == {b.id};
  }

  /** The write before sending fails once, and the agent crashes after the panel recorded the batch:
      what was recorded is measured again from the older file, and 25 bytes are counted for 15. */
  lemma UnsavedBatchCountsTwice(node: int, name: string, stat: Stat) returns (steps: seq<Step>)
    requires StatOf(name) == Some(stat)
    ensures After(node, steps).Some? && Troubles(node, steps) == [Crash]
    ensures var w := After(node, steps).value; Get(w.totals, stat) == 25 && Total(w.moved, stat) == 15
  {
    hide StatOf, Total, Aggregates, Identifies, AddRecords, RecordOf, NormalizeAll, RecordSum;
    var b, c := BatchOf(node, name, stat, 10, 10), BatchOf(node, name, stat, 15, 15);
    steps := UnsavedBatchLost(node, name, stat);
    var w6 := Init(node).(xray := Only(name, 10), moved := Only(name, 10), sent := {b}, applied := {b.id},
                    totals := AddRecords(map[], b.records), exposed := true);
    steps := Go(node, steps, w6, Transfer(name, 5));
    var w7 := w6.(xray := Only(name, 15), moved := Only(name, 15));
    assert Only(name, 10)[name := 10 + 5] == Only(name, 15);
    assert Reached(node, steps, w7);
    steps := FreezeSaveSend(node, steps, w7, name, stat, 15);
    assert c.id.counters[0].value != b.id.counters[0].value;
    SingleBatchTotal(node, map[], name, stat, 10, 10);
    SingleBatchTotal(node, w7.totals, name, stat, 15, 15);
    OnlyTotal(name, stat, 15);
  }

  /** A batch is recorded, its reply is lost, and the panel forgets having seen it. */
  lemma RecordedAndForgotten(node: int, name: string, stat: Stat) returns (steps: seq<Step>)
    requires StatOf(name) == Some(stat)
    ensures var b := BatchOf(node, name, stat, 10, 10);
            && Troubles(node, steps) == [PanelForgets(b.id)]
            && Reached(node, steps, Init(node).(xray := Only(name, 10), moved := Only(name, 10), mem := Memory(map[], Some(b)),
                                    file := Save(Memory(map[], Some(b))), sent := {b}, totals := AddRecords(map[], b.records)))
  {
    hide StatOf, Total, Aggregates, Identifies, AddRecords, RecordOf, NormalizeAll, RecordSum, BatchOf, Save;
    var b := BatchOf(node, name, stat, 10, 10);
    var m := Memory(map[], Some(b));
    steps := FirstTransfer(node, name, 10);
    var w1 := Init(node).(xray := Only(name, 10), moved := Only(name, 10));
    steps := FreezeSaveSend(node, steps, w1, name, stat, 10);
    assert {} + {b} == {b} && {} + {b.id} == {b.id};
    var w2 := w1.(mem := m, file := Save(m), phase := Calling(CallOf(b)), sent := {b}, applied := {b.id},
                  totals := AddRecords(map[], b.records));
    steps := Go(node, steps, w2, ReplyLost);
    var w3 := w2.(phase := Idle);
    steps := Go(node, steps, w3, PanelForgets(b.id));
    assert {b.id} - {b.id} == {};
  }

  /** The panel forgets an identity (its memory of batch IDs is kept in the process and for six hours
      only) before a resent batch arrives: 20 bytes are counted for 10. */
  lemma ForgetfulPanelCountsTwice(node: int, name: string, stat: Stat) returns (steps: seq<Step>)
    requires StatOf(name) == Some(stat)
    ensures After(node, steps).Some? && |Troubles(node, steps)| == 1 && Troubles(node, steps)[0].PanelForgets?
    ensures var w := After(node, steps).value; Get(w.totals, stat) == 20 && Total(w.moved, stat) == 10
  {
    hide StatOf, Total, Aggregates, Identifies, AddRecords, RecordOf, NormalizeAll, RecordSum, Save;
    var b := BatchOf(node, name, stat, 10, 10);
    var m := Memory(map[], Some(b));
    steps := RecordedAndForgotten(node, name, stat);
    var w4 := Init(node).(xray := Only(name, 10), moved := Only(name, 10), mem := m, file := Save(m), sent := {b},
                    totals := AddRecords(map[], b.records));
    steps := Go(node, steps, w4, Prepare(true, m, CallOf(b)));
    var w5 := w4.(phase := Calling(CallOf(b)));
    SavedBatchIsLoaded(m, name, 10);
    steps := Go(node, steps, w5, Send);
    assert {b} + {b} == {b};
    steps := Go(node, steps, w5, PanelApply(b));
    SingleBatchTotal(node, map[], name, stat, 10, 10);
    SingleBatchTotal(node, w5.totals, name, stat, 10, 10);
    OnlyTotal(name, stat, 10);
  }

  /** One batch of 100 bytes is recorded and committed; then Xray restarts and an idle heartbeat
      commits the empty set of counters. */
  lemma CommittedThenReset(node: int, name: string, stat: Stat) returns (steps: seq<Step>, w: World)
    requires StatOf(name) == Some(stat)
    ensures Reached(node, steps, w) && Troubles(node, steps) == [ResetCounters({name}, {})]
    ensures var b := BatchOf(node, name, stat, 100, 100);
            w.node == node && w.xray == map[] && w.moved == Only(name, 100) && w.mem == Memory(map[], None) && w.phase.Idle?
            && w.applied == {b.id} && w.sent == {b} && w.totals == AddRecords(map[], b.records)
  {
    hide StatOf, Total, Aggregates, Identifies, AddRecords, RecordOf, NormalizeAll, RecordSum;
    var b := BatchOf(node, name, stat, 100, 100);
    var m := Memory(map[], Some(b));
    steps := FirstTransfer(node, name, 100);
    var w1 := Init(node).(xray := Only(name, 100), moved := Only(name, 100));
    steps := FreezeSaveSend(node, steps, w1, name, stat, 100);
    var w2 := w1.(mem := m, file := Save(m), phase := Calling(CallOf(b)), sent := {b}, applied := {b.id},
                  totals := AddRecords(map[], b.records));
    assert {} + {b} == {b} && {} + {b.id} == {b.id};
    assert Reached(node, steps, w2);
    steps := Go(node, steps, w2, ReplyOk);
    var w3 := w2.(mem := Memory(Only(name, 100), None), phase := SavingAck);
    steps := Go(node, steps, w3, AckSaveFailed);
    var w4 := w3.(phase := Idle);
    steps := Go(node, steps, w4, ResetCounters({name}, {}));
    var w5 := w4.(xray := map[]);
    assert Reached(node, steps, w5);
    steps := IdleCommit(node, steps, w5);
    w := w5.(mem := Memory(map[], None));
  }

  /** A heartbeat with nothing to report commits the counters as they are: here, none. */
  lemma IdleCommit(node: int, steps: seq<Step>, w: World) returns (more: seq<Step>)
    requires Reached(node, steps, w) && w.node == node && w.phase.Idle? && w.mem.pending.None? && w.xray == map[]
    ensures Troubles(node, more) == Troubles(node, steps) && Reached(node, more, w.(mem := Memory(map[], None)))
  {
    hide StatOf, AddRecords, RecordOf;
    var idle := Some(Prepared(Some(map[]), [], None));
    assert Deltas(w.mem.committed, map[]) == map[];
    assert Aggregates([], map[]);
    assert PrepareEffect(w.mem, Some(w.xray), node, w.mem, idle);
    more := Go(node, steps, w, Prepare(true, w.mem, idle));
    more := Go(node, more, w.(phase := Calling(idle)), ReplyOk);
  }

  /** No fault at all, but an Xray restart: the counter climbs back to the value of an earlier batch, the
      new batch has that batch's identity, the panel skips it, and the agent commits 100 unrecorded bytes. */
  lemma ResetCanLoseTraffic(node: int, name: string, stat: Stat) returns (steps: seq<Step>)
    requires StatOf(name) == Some(stat)
    ensures After(node, steps).Some? && Troubles(node, steps) == [ResetCounters({name}, {})]
    ensures var w := After(node, steps).value;
            w.mem.pending.None? && Get(w.totals, stat) == 100 && Total(w.moved, stat) == 200
            && Total(Deltas(w.mem.committed, w.xray), stat) == 0
  {
    hide StatOf, Total, AddRecords, RecordOf, Save, Troubles;
    var b := BatchOf(node, name, stat, 100, 100);
    var w: World;
    steps, w := CommittedThenReset(node, name, stat);
    steps := Go(node, steps, w, Transfer(name, 100));
    var w1 := w.(xray := Only(name, 100), moved := Only(name, 200));
    assert map[][name := 0 + 100] == Only(name, 100) && Only(name, 100)[name := 100 + 100] == Only(name, 200);
    assert Reached(node, steps, w1);
    steps := FreezeSaveSend(node, steps, w1, name, stat, 100);
    var m := Memory(map[], Some(b));
    var w2 := w1.(mem := m, file := Save(m), temp := NoTemp, phase := Calling(CallOf(b)), sent := {b}, exposed := false);
    assert {b} + {b} == {b} && {b.id} + {b.id} == {b.id};
    assert Reached(node, steps, w2);
    steps := Go(node, steps, w2, ReplyOk);
    assert Reached(node, steps, w2.(mem := Memory(Only(name, 100), None), phase := SavingAck));
    SingleBatchTotal(node, map[], name, stat, 100, 100);
    OnlyTotal(name, stat, 200);
    OnlyTotal(name, stat, 0);
    assert Deltas(Only(name, 100), Only(name, 100)) == Only(name, 0);
  }

  lemma ClearedInFlight(node: int, name: string, stat: Stat) returns (steps: seq<Step>, w: World)
    requires StatOf(name) == Some(stat)
    ensures Troubles(node, steps) == [SuccessInFlight] && Reached(node, steps, w)
    ensures w.xray == Only(name, 100) && w.moved == Only(name, 100) && w.mem == Memory(Only(name, 100), None)
    ensures w.phase.SavingAck? && w.totals == map[]
  {
    hide StatOf, Total, Troubles, Save;
    var b := BatchOf(node, name, stat, 100, 100);
    var m := Memory(map[], Some(b));
    steps := FirstTransfer(node, name, 100);
    var w1 := Init(node).(xray := Only(name, 100), moved := Only(name, 100));
    steps := FreezeSaveRequest(node, steps, w1, name, stat, 100);
    var w2 := w1.(mem := m, file := Save(m), phase := Calling(CallOf(b)), sent := {b});
    assert {} + {b} == {b} && Reached(node, steps, w2);
    SavedBatchIsLoaded(m, name, 100);
    steps := Go(node, steps, w2, ReplyLost);
    steps := Go(node, steps, w2.(phase := Idle), Prepare(true, m, CallOf(b)));
    steps := Go(node, steps, w2, Send);
    assert {b} + {b} == {b} && Reached(node, steps, w2);
    steps := Go(node, steps, w2, SuccessInFlight);
    w := w2.(mem := Memory(Only(name, 100), None), phase := SavingAck, orphans := [b]);
    assert [] + [b] == [b];
  }

  /** The first copy of a request is still being recorded when the agent gives up and resends. The panel answers the
      second copy with success, the agent clears the batch, and the first copy fails: 100 bytes are never counted, and
      neither memory nor file holds them any more. */
  lemma SuccessInFlightLosesTraffic(node: int, name: string, stat: Stat) returns (steps: seq<Step>)
    requires StatOf(name) == Some(stat)
    ensures After(node, steps).Some? && Troubles(node, steps) == [SuccessInFlight]
    ensures var w := After(node, steps).value;
            && w.phase.Idle? && w.mem.pending.None? && Load(w.file) == w.mem
            && Get(w.totals, stat) == 0 && Total(w.moved, stat) == 100
            && Total(Deltas(w.mem.committed, w.xray), stat) == 0
  {
    hide StatOf, Total, Troubles, BatchOf, Save, Load;
    var b := BatchOf(node, name, stat, 100, 100);
    var w: World;
    steps, w := ClearedInFlight(node, name, stat);
    var cleared := Memory(Only(name, 100), None);
    steps := Go(node, steps, w, WriteTemp(true));
    steps := Go(node, steps, w.(temp := Complete(Save(cleared))), Rename);
    assert Reached(node, steps, w.(file := Save(cleared), temp := NoTemp, exposed := false, phase := Idle));
    SaveLoadRoundTrip(cleared);
    OnlyTotal(name, stat, 100);
    OnlyTotal(name, stat, 0);
    assert Deltas(Only(name, 100), Only(name, 100)) == Only(name, 0);
  }
}
