/** Counters that fall: what is transferred after a restart of Xray is reported, too, as long as a fallen counter is read
    before it has climbed back. */
module TrafficFalls {
  import opened Common
  import opened Counters
  import opened TrafficReporting
  import opened BatchIdentity
  import opened TrafficAgent
  import opened TrafficProtocol
  import opened TrafficExactness

  // ---- When a counter hides bytes ----

  /** A counter measured from `base` hides bytes: it falls before all of it was read, or climbs back to `base` unread. */
  predicate Hides(base: int, before: int, after: int) {
    if after < before then before != base else before < base <= after
  }

  ghost predicate HidesBytes(base: Counters, before: Counters, after: Counters) {
    exists n :: StatOf(n).Some? && Hides(Get(base, n), Get(before, n), Get(after, n))
  }

  /** The counters from which a memory measures on, once its batch is acknowledged. */
  ghost function BaseOf(m: Memory): Counters {
    if m.pending.Some? && m.pending.value.snapshot.Some? then m.pending.value.snapshot.value else m.committed
  }

  /** Bytes may escape the agent: hidden from what it, or an agent started from the file, or the open call measures from;
      or frozen under an identity that was sent before. */
  ghost predicate Misses(w: World, s: Step) {
    match s
    case Transfer(_, _) => HiddenFrom(w, Do(w, s).xray)
    case ResetCounters(_, _) => HiddenFrom(w, Do(w, s).xray)
    case Prepare(_, after, _) =>
      w.mem.pending.None? && after.pending.Some? && exists b :: b in w.sent && b.id == after.pending.value.id
    case SuccessInFlight => true
    case CrashUnread => true
    case _ => false
  }

  ghost predicate HiddenFrom(w: World, after: Counters) {
    || HidesBytes(BaseOf(w.mem), w.xray, after)
    || (!w.exposed && HidesBytes(BaseOf(Load(w.file)), w.xray, after))
    || (OpenReading(w).Some? && HidesBytes(OpenReading(w).value, w.xray, after))
  }

  /** The counters that an open call without records will commit. */
  ghost function OpenReading(w: World): Option<Counters> {
    if w.phase.Calling? && w.phase.request.Some? && w.phase.request.value.batchID.None? then w.phase.request.value.snapshot
    else None
  }

  ghost predicate NothingMissed(node: int, steps: seq<Step>) {
    steps == [] ||
    (var front := steps[..|steps| - 1];
     NothingMissed(node, front) &&
     (After(node, front).Some? ==> !Misses(After(node, front).value, steps[|steps| - 1])))
  }

  // ---- Everything is accounted for ----

  ghost predicate FullAt(w: World, owed: seq<TrafficRecord>, base: Counters, stat: Stat) {
    Get(w.totals, stat) + RecordSum(owed, stat) + Total(Deltas(base, w.xray), stat) == Total(w.moved, stat)
  }

  ghost predicate Full(w: World, m: Memory) {
    forall stat :: FullAt(w, OwedBy(w, m), BaseOf(m), stat)
  }

  ghost function OwedBy(w: World, m: Memory): seq<TrafficRecord> {
    if m.pending.Some? then Outstanding(w, m.pending.value) else []
  }

  lemma FullMeans(w: World, m: Memory, stat: Stat)
    requires Full(w, m)
    ensures FullAt(w, OwedBy(w, m), BaseOf(m), stat)
  {
  }

  ghost predicate FullInv(w: World) {
    && Inv(w) && w.orphans == []
    && Full(w, w.mem) && (!w.exposed ==> Full(w, Load(w.file)))
    && (OpenReading(w).Some? ==> Full(w, Memory(OpenReading(w).value, None)))
  }

  lemma DeltaFollows(base: int, before: int, bytes: int)
    requires base >= 0 && before >= 0 && bytes >= 0
    ensures Delta(base, before + bytes) - Delta(base, before) <= bytes
    ensures Delta(base, before + bytes) - Delta(base, before) == bytes <==> !Hides(base, before, before + bytes)
  {
  }

  /** What is transferred raises the deltas by as much, unless its counter hides bytes. */
  lemma TransferReported(base: Counters, x: Counters, moved: Counters, name: string, bytes: nat, stat: Stat)
    requires NonNegative(base) && NonNegative(x)
    ensures var y, m := x[name := Get(x, name) + bytes], moved[name := Get(moved, name) + bytes];
            Total(Deltas(base, y), stat) - Total(Deltas(base, x), stat) == Total(m, stat) - Total(moved, stat) <==>
            !(Measures(name, stat) && Hides(Get(base, name), Get(x, name), Get(y, name)))
  {
    hide StatOf, Delta;
    var v := Get(x, name) + bytes;
    DeltasAfterTransfer(base, x, name, v);
    DeltaFollows(Get(base, name), Get(x, name), bytes);
    AbsentDelta(base, x, name);
    TotalSet(Deltas(base, x), name, Delta(Get(base, name), v), stat);
    TotalSet(moved, name, Get(moved, name) + bytes, stat);
  }

  lemma AbsentDelta(base: Counters, x: Counters, name: string)
    requires NonNegative(base)
    ensures Get(Deltas(base, x), name) == Delta(Get(base, name), Get(x, name))
  {
  }

  lemma DeltaFalls(base: int, before: int)
    requires base >= 0 && before >= 0
    ensures Delta(base, 0) == 0 <= Delta(base, before)
    ensures Delta(base, before) == 0 <==> before == 0 || before == base
  {
  }

  ghost predicate FallsTo(x: Counters, y: Counters) {
    forall n :: Get(y, n) == Get(x, n) || Get(y, n) == 0
  }

  /** A fall leaves the deltas as they are, unless a fallen counter hides bytes. */
  lemma FallReported(base: Counters, x: Counters, y: Counters, stat: Stat)
    requires NonNegative(base) && NonNegative(x) && FallsTo(x, y)
    ensures Total(Deltas(base, y), stat) <= Total(Deltas(base, x), stat)
    ensures Total(Deltas(base, y), stat) == Total(Deltas(base, x), stat) <==>
            !exists n :: Measures(n, stat) && Hides(Get(base, n), Get(x, n), Get(y, n))
  {
    hide StatOf, Total, Deltas, Delta;
    var d, e := Deltas(base, x), Deltas(base, y);
    forall n ensures 0 <= Get(e, n) <= Get(d, n) && (Get(e, n) < Get(d, n) <==> Hides(Get(base, n), Get(x, n), Get(y, n))) {
      AbsentDelta(base, x, n);
      AbsentDelta(base, y, n);
      DeltaFalls(Get(base, n), Get(x, n));
    }
    assert Below(e, d);
    TotalMonotone(e, d, stat);
    if n :| Measures(n, stat) && Hides(Get(base, n), Get(x, n), Get(y, n)) {
      StrictlyBelow(e, d, n, stat);
    } else {
      forall n | Measures(n, stat) ensures Get(d, n) == Get(e, n) { }
      SameShares(d, e, stat);
    }
  }

  lemma StrictlyBelow(e: Counters, d: Counters, n: string, stat: Stat)
    requires Below(e, d) && Measures(n, stat) && Get(e, n) < Get(d, n)
    ensures Total(e, stat) < Total(d, stat)
  {
    hide StatOf;
    var names := e.Keys + d.Keys + {n};
    SumWiden(names, e, stat);
    SumWiden(names, d, stat);
    SumPick(names, n, e, stat);
    SumPick(names, n, d, stat);
    SumAgree(names - {n}, e, d, stat);
  }

  lemma SameShares(d: Counters, e: Counters, stat: Stat)
    requires forall n | Measures(n, stat) :: Get(d, n) == Get(e, n)
    ensures Total(d, stat) == Total(e, stat)
  {
    hide StatOf;
    var names := d.Keys + e.Keys;
    SumWiden(names, d, stat);
    SumWiden(names, e, stat);
    SumAgree(names, d, e, stat);
    SumAgree(names, e, d, stat);
  }

  lemma ResetFalls(w: World, s: Step)
    requires s.ResetCounters? && NonNegative(w.xray)
    ensures FallsTo(w.xray, Do(w, s).xray) && Do(w, s).moved == w.moved
  {
  }

  /** Exactly the steps of the environment that hide bytes from a base make its account fall short. */
  lemma StaysFullExactlyWhen(w: World, s: Step, m: Memory)
    requires EnvironmentStep(s) && NonNegative(w.xray) && NonNegative(BaseOf(m)) && Full(w, m)
    ensures Full(Do(w, s), m) <==> !HidesBytes(BaseOf(m), w.xray, Do(w, s).xray)
  {
    hide StatOf, Total, Deltas, RecordSum, Outstanding, Hides;
    var v, base, owed := Do(w, s), BaseOf(m), OwedBy(w, m);
    SameOwed(w, v, m);
    forall stat ensures FullAt(v, owed, base, stat) <==>
                        !exists n :: Measures(n, stat) && Hides(Get(base, n), Get(w.xray, n), Get(v.xray, n)) {
      assert FullAt(w, owed, base, stat);
      if s.Transfer? {
        TransferReported(base, w.xray, w.moved, s.name, s.bytes, stat);
        OnlyOneMoves(w, s, base);
      } else {
        ResetFalls(w, s);
        FallReported(base, w.xray, v.xray, stat);
      }
    }
    if n :| StatOf(n).Some? && Hides(Get(base, n), Get(w.xray, n), Get(v.xray, n)) {
      assert Measures(n, StatOf(n).value);
      assert !FullAt(v, owed, base, StatOf(n).value);
    }
    if !HidesBytes(base, w.xray, v.xray) {
      forall stat ensures FullAt(v, owed, base, stat) {
        assert !exists n :: Measures(n, stat) && Hides(Get(base, n), Get(w.xray, n), Get(v.xray, n));
      }
    }
  }

  lemma OnlyOneMoves(w: World, s: Step, base: Counters)
    requires s.Transfer?
    ensures forall n | Hides(Get(base, n), Get(w.xray, n), Get(Do(w, s).xray, n)) :: n == s.name
  {
  }

  lemma SameOwed(w: World, v: World, m: Memory)
    requires w.applied == v.applied && w.orphans == v.orphans
    ensures OwedBy(w, m) == OwedBy(v, m)
  {
  }

  lemma SameFull(w: World, v: World, m: Memory)
    requires w.xray == v.xray && w.moved == v.moved && w.totals == v.totals && w.applied == v.applied && w.orphans == v.orphans
    ensures Full(w, m) == Full(v, m)
  {
    hide Total, Deltas, RecordSum, Get;
    SameOwed(w, v, m);
    assert forall stat :: FullAt(w, OwedBy(w, m), BaseOf(m), stat) == FullAt(v, OwedBy(v, m), BaseOf(m), stat);
  }

  lemma BasesAreGood(w: World)
    requires Inv(w)
    ensures NonNegative(BaseOf(w.mem)) && (!w.exposed ==> NonNegative(BaseOf(Load(w.file))))
    ensures OpenReading(w).Some? ==> NonNegative(OpenReading(w).value)
    ensures w.mem.pending.Some? ==> w.mem.pending.value.snapshot.Some?
    ensures OpenReading(w).Some? ==> w.mem.pending.None?
  {
    hide Covered, RecordSum, Identifies, Total;
  }

  // ---- Single steps ----

  lemma EnvironmentKeepsFull(w: World, s: Step)
    requires FullInv(w) && EnvironmentStep(s) && !Misses(w, s)
    ensures FullInv(Do(w, s))
  {
    hide Inv, Full, HidesBytes, Load, Enabled;
    StepKeepsInv(w, s) by { assert Enabled(w, s) by { EnvironmentEnabled(w, s); } }
    BasesAreGood(w);
    XrayNonNegative(w);
    StaysFullExactlyWhen(w, s, w.mem);
    if !w.exposed { StaysFullExactlyWhen(w, s, Load(w.file)); }
    if OpenReading(w).Some? { StaysFullExactlyWhen(w, s, Memory(OpenReading(w).value, None)); }
  }

  lemma EnvironmentEnabled(w: World, s: Step)
    requires EnvironmentStep(s)
    ensures Enabled(w, s)
  {
  }

  lemma XrayNonNegative(w: World)
    requires Inv(w)
    ensures NonNegative(w.xray)
  {
  }

  /** What is frozen is all that was not yet accounted for. */
  lemma FreezeIsFull(w: World, records: seq<TrafficRecord>, stat: Stat)
    requires Full(w, w.mem) && w.mem.pending.None? && Aggregates(records, Deltas(w.mem.committed, w.xray))
    ensures Get(w.totals, stat) + RecordSum(records, stat) == Total(w.moved, stat)
  {
    hide StatOf, Aggregates, Total, Deltas;
    FullMeans(w, w.mem, stat);
    RecordsCarryDeltas(records, Deltas(w.mem.committed, w.xray), stat);
    NoRecords(stat);
  }

  lemma PrepareKeepsFull(w: World, s: Step)
    requires FullInv(w) && s.Prepare? && Enabled(w, s) && !Misses(w, s)
    ensures FullInv(Do(w, s))
  {
    hide Inv, Load, Identifies, Aggregates, RecordSum, Total, Deltas, NonNegative;
    StepKeepsInv(w, s);
    var v := Do(w, s);
    if !w.exposed { SameFull(w, v, Load(w.file)); }
    if w.mem.pending.None? && s.queryOk {
      var records := s.request.value.records;
      if v.mem.pending.Some? {
        NewIsOutstanding(w, v);
      } else {
        SameFull(w, v, v.mem);
      }
      forall stat ensures FullAt(v, records, w.xray, stat) {
        FreezeIsFull(w, records, stat);
        NoGrowth(w.xray, stat);
      }
    } else {
      SameFull(w, v, v.mem);
    }
  }

  lemma NoGrowth(x: Counters, stat: Stat)
    ensures Total(Deltas(x, x), stat) == 0
  {
    hide StatOf;
    SumZero(Deltas(x, x).Keys, Deltas(x, x), stat);
  }

  lemma NewIsOutstanding(w: World, v: World)
    requires Inv(w) && w.orphans == [] == v.orphans && v.applied == w.applied && v.mem.pending.Some?
    requires !exists b :: b in w.sent && b.id == v.mem.pending.value.id
    ensures Outstanding(v, v.mem.pending.value) == v.mem.pending.value.records
  {
    hide Sound, Tracked, PhaseOk, NonNegative;
  }

  lemma ApplyKeepsFull(w: World, b: Batch)
    requires FullInv(w) && Enabled(w, PanelApply(b)) && b.id !in w.applied
    ensures FullInv(Do(w, PanelApply(b)))
  {
    hide Load, Identifies, RecordSum, Total, Deltas, NonNegative, AddRecords, Full, Covered;
    StepKeepsInv(w, PanelApply(b));
    assert Tracked(w, b);
    ApplyFull(w, b, w.mem);
    if !w.exposed { ApplyFull(w, b, Load(w.file)); }
    BasesAreGood(w);
  }

  lemma ApplyFull(w: World, b: Batch, m: Memory)
    requires Enabled(w, PanelApply(b)) && b.id !in w.applied && w.orphans == [] && m.pending == Some(b) && Full(w, m)
    ensures Full(Do(w, PanelApply(b)), m)
  {
    hide Total, Deltas, RecordSum, AddRecords;
    var v := Do(w, PanelApply(b));
    forall stat ensures FullAt(v, [], BaseOf(m), stat) {
      FullMeans(w, m, stat);
      assert OwedBy(w, m) == b.records;
      AddRecordsAdds(w.totals, b.records, stat);
      NoRecords(stat);
    }
  }

  lemma ReplyOkKeepsFull(w: World)
    requires FullInv(w) && Enabled(w, ReplyOk)
    ensures FullInv(Do(w, ReplyOk))
  {
    hide Load, Identifies, RecordSum, Total, Deltas, NonNegative, Covered, Full, GoodBatch, FromRequests;
    StepKeepsInv(w, ReplyOk);
    var v := Do(w, ReplyOk);
    BasesAreGood(w);
    if w.phase.request.Some? && w.phase.request.value.batchID.Some? {
      SettledIsFull(w);
    }
    SameFull(w, v, v.mem);
    if !w.exposed { SameFull(w, v, Load(w.file)); }
  }

  lemma SettledIsFull(w: World)
    requires Full(w, w.mem) && w.mem.pending.Some? && w.mem.pending.value.snapshot.Some?
    requires w.mem.pending.value.id in w.applied
    ensures Full(w, Memory(w.mem.pending.value.snapshot.value, None))
  {
    hide Total, Deltas, RecordSum;
    forall stat ensures FullAt(w, [], w.mem.pending.value.snapshot.value, stat) {
      FullMeans(w, w.mem, stat);
      assert OwedBy(w, w.mem) == [];
    }
  }

  lemma RenameKeepsFull(w: World)
    requires FullInv(w) && Enabled(w, Rename)
    ensures FullInv(Do(w, Rename))
  {
    hide StatOf, Total, Deltas, RecordSum, Get, Identifies, Covered, NonNegative, Full;
    StepKeepsInv(w, Rename);
    var v := Do(w, Rename);
    SaveLoadRoundTrip(w.mem);
    SameFull(w, v, w.mem);
  }

  lemma QuietKeepsFull(w: World, s: Step)
    requires FullInv(w) && Enabled(w, s) && !DoubleCounting(w, s)
    requires s.WriteTemp? || s.AckSaveFailed? || s.BatchSaveFailed? || s.ReplyLost? || s.Send? || s.Crash?
    ensures FullInv(Do(w, s))
  {
    hide StatOf, Load, Identifies, RecordSum, Total, Deltas, NonNegative, Covered, Full, Inv, Get;
    StepKeepsInv(w, s);
    var v := Do(w, s);
    SameFull(w, v, w.mem);
    if !w.exposed { SameFull(w, v, Load(w.file)); }
    if OpenReading(w).Some? { SameFull(w, v, Memory(OpenReading(w).value, None)); }
    BasesAreGood(w);
    if s.BatchSaveFailed? { SavedCallHasBatch(w); }
  }

  lemma SavedCallHasBatch(w: World)
    requires Inv(w) && w.phase.SavingBatch?
    ensures w.phase.call.batchID.Some?
  {
  }

  lemma StepKeepsFull(w: World, s: Step)
    requires FullInv(w) && Enabled(w, s) && !DoubleCounting(w, s) && !Misses(w, s)
    ensures FullInv(Do(w, s))
  {
    hide FullInv, Do;
    match s
    case Transfer(_, _) => EnvironmentKeepsFull(w, s);
    case ResetCounters(_, _) => EnvironmentKeepsFull(w, s);
    case Prepare(_, _, _) => PrepareKeepsFull(w, s);
    case Rename => RenameKeepsFull(w);
    case PanelApply(batch) =>
      if batch.id in w.applied { NothingToApply(w, batch); } else { ApplyKeepsFull(w, batch); }
    case ReplyOk => ReplyOkKeepsFull(w);
    case PanelForgets(id) => NothingToForget(w, id);
    case Send => QuietKeepsFull(w, s);
    case Crash => QuietKeepsFull(w, s);
    case WriteTemp(_) => QuietKeepsFull(w, s);
    case AckSaveFailed => QuietKeepsFull(w, s);
    case BatchSaveFailed => QuietKeepsFull(w, s);
    case ReplyLost => QuietKeepsFull(w, s);
  }

  lemma InitFull(node: int)
    ensures FullInv(Init(node))
  {
    InitInv(node);
    forall stat ensures FullAt(Init(node), [], map[], stat) {
      NoRecords(stat);
      NothingTotals(stat);
      NoGrowth(map[], stat);
    }
  }

  lemma {:induction false} ReachableFull(node: int, steps: seq<Step>)
    requires After(node, steps).Some? && NoDoubleCounting(node, steps) && NothingMissed(node, steps)
    ensures FullInv(After(node, steps).value)
  {
    hide FullInv, Do, Enabled, Misses, DoubleCounting;
    if steps != [] {
      ReachableFull(node, steps[..|steps| - 1]);
      StepKeepsFull(After(node, steps[..|steps| - 1]).value, steps[|steps| - 1]);
    } else {
      InitFull(node);
    }
  }

  // ---- Exactness over runs with falls ----

  /** Whenever the agent reads the counters, what the panel has counted and what it freezes is all that was transferred,
      restarts of Xray included. */
  lemma FrozenIsAllMoved(node: int, steps: seq<Step>, s: Step, stat: Stat)
    requires After(node, steps).Some? && NoDoubleCounting(node, steps) && NothingMissed(node, steps)
    requires s.Prepare? && s.queryOk && Enabled(After(node, steps).value, s) && After(node, steps).value.mem.pending.None?
    ensures var w := After(node, steps).value;
            s.request.Some? && Get(w.totals, stat) + RecordSum(s.request.value.records, stat) == Total(w.moved, stat)
  {
    hide StatOf, RecordSum, Total, Deltas, Inv, Aggregates, Identifies;
    ReachableFull(node, steps);
    FreezeIsFull(After(node, steps).value, s.request.value.records, stat);
  }

  /** And while its batch is pending and nothing more was transferred, that stays so until the panel records it; then the
      panel has counted all. */
  lemma PendingIsAllMoved(node: int, steps: seq<Step>, stat: Stat)
    requires After(node, steps).Some? && NoDoubleCounting(node, steps) && NothingMissed(node, steps)
    requires var w := After(node, steps).value;
             w.mem.pending.Some? && w.mem.pending.value.snapshot == Some(w.xray)
    ensures var w := After(node, steps).value;
            var owed := if w.mem.pending.value.id in w.applied then 0 else RecordSum(w.mem.pending.value.records, stat);
            Get(w.totals, stat) + owed == Total(w.moved, stat)
  {
    hide StatOf, RecordSum, Total, Deltas, Inv;
    ReachableFull(node, steps);
    var w := After(node, steps).value;
    FullMeans(w, w.mem, stat);
    NoGrowth(w.xray, stat);
    NoRecords(stat);
  }

  /** One fall: with everything committed that a user counter of `stat` had counted, Xray restarts, and b bytes pass on a
      fallen counter, fewer than it had counted before. The next reading freezes records of just these b bytes. */
  lemma FallIsReportedInFull(w: World, fall: Step, name: string, b: nat, stat: Stat, s: Step)
    requires NonNegative(w.mem.committed) && NonNegative(w.xray) && w.mem.pending.None? && w.phase.Idle?
    requires forall n | StatOf(n) == Some(stat) :: Get(w.xray, n) == Get(w.mem.committed, n)
    requires fall.ResetCounters? && (name in fall.gone || name in fall.zeroed)
    requires StatOf(name) == Some(stat) && 0 < b < Get(w.mem.committed, name)
    requires var after := Do(Do(w, fall), Transfer(name, b)); s.Prepare? && s.queryOk && Enabled(after, s)
    ensures s.request.Some? && RecordSum(s.request.value.records, stat) == b
  {
    hide StatOf, RecordSum, Total, Deltas, Aggregates, Identifies;
    var base, x := w.mem.committed, w.xray;
    var fallen := Do(w, fall);
    var y := fallen.xray[name := Get(fallen.xray, name) + b];
    ResetFalls(w, fall);
    FallReported(base, x, fallen.xray, stat);
    assert Get(fallen.xray, name) == 0;
    TransferReported(base, fallen.xray, map[], name, b, stat);
    TotalSet(map[], name, b, stat);
    NothingTotals(stat);
    NothingUnread(base, x, stat);
    RecordsCarryDeltas(s.request.value.records, Deltas(base, y), stat);
  }

  lemma NothingUnread(base: Counters, x: Counters, stat: Stat)
    requires NonNegative(base) && forall n | Measures(n, stat) :: Get(x, n) == Get(base, n)
    ensures Total(Deltas(base, x), stat) == 0
  {
    hide StatOf;
    forall n | Measures(n, stat) ensures Get(Deltas(base, x), n) == 0 {
      AbsentDelta(base, x, n);
    }
    SameShares(Deltas(base, x), map[], stat);
    NothingTotals(stat);
  }
}
