/** Agent, Xray, network, disk and panel as one step system: what the panel has been told never
    exceeds what was transferred, whatever is lost, repeated or crashes in between. */
module TrafficProtocol {
  import opened Common
  import opened Counters
  import opened TrafficReporting
  import opened BatchIdentity
  import opened TrafficAgent

  datatype Phase =
    | Idle
    | SavingBatch(call: Prepared)           // a new batch is frozen in memory, its file write is outstanding
    | Calling(request: Option<Prepared>)    // the heartbeat call is open
    | SavingAck                             // the batch is cleared in memory, the file write is outstanding

  /** traffic-state.json.tmp; a crash may leave it half written. */
  datatype TempFile = NoTemp | Torn | Complete(content: StateFile)

  datatype World = World(
    xray: Counters,               // Xray's live counters
    moved: Counters,              // bytes ever transferred, by counter (bookkeeping, never read by the agent)
    mem: Memory, phase: Phase,    // the agent process
    file: StateFile, temp: TempFile,
    sent: set<Batch>,             // requests ever sent; the network may deliver each one any number of times
    applied: set<BatchID>,        // batch IDs the panel has recorded
    totals: map<Stat, int>,       // the panel's traffic totals
    node: int,                    // the agent's node
    exposed: bool,                // a batch was sent without being in the file, and no file write has succeeded since
    orphans: seq<Batch>)          // batches the agent cleared while the panel had not recorded them (bookkeeping)

  function Init(node: int): World {
    World(map[], map[], Memory(map[], None), Idle, Absent, NoTemp, {}, {}, map[], node, false, [])
  }

  datatype Step =
    | Transfer(name: string, bytes: nat)
    | ResetCounters(gone: set<string>, zeroed: set<string>)   // Xray restarted: counters vanish or return to zero
    | Prepare(queryOk: bool, after: Memory, request: Option<Prepared>)
    | WriteTemp(complete: bool)
    | Rename
    | AckSaveFailed                 // the write after an acknowledgement fails; it is only logged
    | Send
    | PanelApply(batch: Batch)
    | ReplyOk
    | ReplyLost                     // timeout, error or rejection, with or without the panel having acted
    | Crash
    | BatchSaveFailed               // the write before sending fails; it is only logged and the call goes out
    | SuccessInFlight               // the panel answers success for a batch of which another copy is still in flight
    | PanelForgets(id: BatchID)     // the panel no longer remembers an ID it recorded
    | CrashUnread                   // the restarting agent cannot read or parse the file, and starts with nothing

  /** What can make the panel count bytes twice: a forgotten ID, a crash while the file lags behind what was sent, and a
      restart without the file while Xray still counts for users and anything was sent. */
  ghost predicate DoubleCounting(w: World, s: Step) {
    match s
    case PanelForgets(id) => id in w.applied
    case Crash => w.exposed
    case CrashUnread => w.sent != {} && Counting(w.xray)
    case _ => false
  }

  /** Some counter of a user is above zero. */
  ghost predicate Counting(c: Counters) {
    exists n :: StatOf(n).Some? && Get(c, n) > 0
  }

  /** What can make bytes go missing, or the agent's record of them: a fall of Xray's counters, a success for a batch not
      yet recorded, a restart without the file. */
  ghost predicate Losing(s: Step) {
    s.ResetCounters? || s.SuccessInFlight? || s.CrashUnread?
  }

  function MessageOf(p: Prepared): Batch
    requires p.batchID.Some?
  {
    Batch(p.batchID.value, p.snapshot, p.records)
  }

  /** The panel adds each record to its totals. */
  function AddRecords(totals: map<Stat, int>, records: seq<TrafficRecord>): map<Stat, int> {
    if records == [] then totals
    else
      var r := records[|records| - 1];
      var t := AddRecords(totals, records[..|records| - 1]);
      if r.proxyID.None? then t
      else
        var up, down := Stat(r.userID, r.proxyID.value, Uplink), Stat(r.userID, r.proxyID.value, Downlink);
        t[up := Get(t, up) + r.upload][down := Get(t, down) + r.download]
  }

  ghost predicate Enabled(w: World, s: Step) {
    match s
    case Transfer(_, _) => true
    case ResetCounters(_, _) => true
    case Prepare(queryOk, after, request) =>
      w.phase.Idle? && PrepareEffect(w.mem, if queryOk then Some(w.xray) else None, w.node, after, request)
    case WriteTemp(_) => w.phase.SavingBatch? || w.phase.SavingAck?
    case Rename =>
      && (w.phase.SavingBatch? || w.phase.SavingAck?)
      && (Save(w.mem).Absent? || w.temp == Complete(Save(w.mem)))
    case AckSaveFailed => w.phase.SavingAck?
    case Send => w.phase.Calling? && w.phase.request.Some? && w.phase.request.value.batchID.Some?
    case PanelApply(batch) => batch in w.sent
    case ReplyOk =>
      w.phase.Calling? &&
      (w.phase.request.Some? && w.phase.request.value.batchID.Some? ==>
         MessageOf(w.phase.request.value) in w.sent && w.phase.request.value.batchID.value in w.applied)
    case ReplyLost => w.phase.Calling?
    case Crash => true
    case BatchSaveFailed => w.phase.SavingBatch?
    case SuccessInFlight =>
      && w.phase.Calling? && w.phase.request.Some? && w.phase.request.value.batchID.Some?
      && MessageOf(w.phase.request.value) in w.sent && w.phase.request.value.batchID.value !in w.applied
    case PanelForgets(_) => true
    case CrashUnread => true
  }

  ghost function Do(w: World, s: Step): World
    requires Enabled(w, s)
  {
    match s
    case Transfer(name, bytes) =>
      w.(xray := w.xray[name := Get(w.xray, name) + bytes], moved := w.moved[name := Get(w.moved, name) + bytes])
    case ResetCounters(gone, zeroed) =>
      w.(xray := map n | n in w.xray && n !in gone :: if n in zeroed then 0 else w.xray[n])
    case Prepare(_, after, request) =>
      w.(mem := after, phase := if after != w.mem then SavingBatch(request.value) else Calling(request))
    case WriteTemp(complete) => w.(temp := if complete then Complete(Save(w.mem)) else Torn)
    case Rename =>
      w.(file := Save(w.mem), temp := NoTemp, exposed := false,
         phase := if w.phase.SavingBatch? then Calling(Some(w.phase.call)) else Idle)
    case AckSaveFailed => w.(phase := Idle)
    case Send =>
      var b := MessageOf(w.phase.request.value);
      w.(sent := w.sent + {b}, exposed := w.exposed || Load(w.file).pending != Some(b))
    case PanelApply(batch) =>
      if batch.id in w.applied then w
      else w.(applied := w.applied + {batch.id}, totals := AddRecords(w.totals, batch.records))
    case ReplyOk =>
      if w.phase.request.None? || w.phase.request.value.snapshot.None? then w.(phase := Idle)
      else
        var p := w.phase.request.value;
        w.(mem := Acknowledge(w.mem, p.batchID, p.snapshot), phase := if p.batchID.Some? then SavingAck else Idle)
    case ReplyLost => w.(phase := Idle)
    case Crash => w.(mem := Load(w.file), phase := Idle)
    case BatchSaveFailed => w.(phase := Calling(Some(w.phase.call)))
    case SuccessInFlight =>
      var p := w.phase.request.value;
      var b := MessageOf(p);
      w.(mem := Acknowledge(w.mem, p.batchID, p.snapshot), phase := SavingAck,
         orphans := if b in w.orphans then w.orphans else w.orphans + [b])
    case PanelForgets(id) => w.(applied := w.applied - {id})
    case CrashUnread =>
      w.(mem := Load(Unreadable), phase := Idle, orphans := w.orphans + if Abandons(w) then [w.mem.pending.value] else [])
  }

  /** The batch in memory was sent and not recorded, so a copy of it may still arrive. */
  ghost predicate Abandons(w: World) {
    && w.mem.pending.Some? && w.mem.pending.value in w.sent && w.mem.pending.value.id !in w.applied
    && w.mem.pending.value !in w.orphans
  }

  /** The world after a list of steps, if each was possible when its turn came. */
  ghost function After(node: int, steps: seq<Step>): Option<World> {
    if steps == [] then Some(Init(node))
    else
      match After(node, steps[..|steps| - 1])
      case None => None
      case Some(w) => if Enabled(w, steps[|steps| - 1]) then Some(Do(w, steps[|steps| - 1])) else None
  }

  ghost predicate Reached(node: int, steps: seq<Step>, w: World) {
    After(node, steps) == Some(w)
  }

  lemma Extend(node: int, steps: seq<Step>, w: World, s: Step) returns (more: seq<Step>)
    requires Reached(node, steps, w) && Enabled(w, s)
    ensures more == steps + [s] && Reached(node, more, Do(w, s))
  {
    more := steps + [s];
    assert more[..|more| - 1] == steps;
  }

  // ---- Safety: no over-count ----

  /** What the cleared but unrecorded batches may still add when their copies arrive. */
  ghost function Owed(orphans: seq<Batch>, applied: set<BatchID>, stat: Stat): int {
    if orphans == [] then 0
    else
      var b := orphans[|orphans| - 1];
      Owed(orphans[..|orphans| - 1], applied, stat) + if b.id in applied then 0 else RecordSum(b.records, stat)
  }

  /** Everything the panel counted, may still count for orphans and `owed`, and will be asked to count later, was
      transferred. */
  ghost predicate Covered(w: World, owed: seq<TrafficRecord>, base: Counters) {
    forall stat :: CoveredAt(w, owed, base, stat)
  }

  ghost predicate CoveredAt(w: World, owed: seq<TrafficRecord>, base: Counters, stat: Stat) {
    Get(w.totals, stat) + Owed(w.orphans, w.applied, stat) + RecordSum(owed, stat) + Total(Deltas(base, w.xray), stat)
      <= Total(w.moved, stat)
  }

  ghost predicate GoodBatch(node: int, b: Batch) {
    && b.snapshot.Some? && b.snapshot.value != map[] && NonNegative(b.snapshot.value)
    && (forall stat :: 0 <= RecordSum(b.records, stat) <= Total(b.snapshot.value, stat))
    && (exists stat :: RecordSum(b.records, stat) > 0)
    && Identifies(b.id, node, b.snapshot, b.records)
  }

  /** The records of a pending batch that are not accounted for elsewhere. */
  ghost function Outstanding(w: World, b: Batch): seq<TrafficRecord> {
    if b.id in w.applied || b in w.orphans then [] else b.records
  }

  ghost predicate Sound(w: World, m: Memory) {
    && NonNegative(m.committed)
    && match m.pending
       case None => Covered(w, [], m.committed)
       case Some(b) => GoodBatch(w.node, b) && Covered(w, Outstanding(w, b), b.snapshot.value)
  }

  ghost predicate PhaseOk(w: World) {
    match w.phase
    case Idle => true
    case SavingBatch(call) => call.batchID.Some? && w.mem.pending == Some(MessageOf(call))
    case Calling(None) => w.mem.pending.None?
    case Calling(Some(p)) =>
      p.snapshot.Some? &&
      if p.batchID.Some? then w.mem.pending == Some(MessageOf(p))
      else w.mem.pending.None? && Sound(w, Memory(p.snapshot.value, None))
    case SavingAck => w.mem.pending.None?
  }

  /** A request that may still be recorded is an orphan, or pending in memory and, unless the file lags, on disk. */
  ghost predicate Tracked(w: World, b: Batch) {
    && GoodBatch(w.node, b)
    && (b.id in w.applied || b in w.orphans
        || (w.mem.pending == Some(b) && (w.exposed || Load(w.file).pending == Some(b))))
  }

  ghost predicate Inv(w: World) {
    && NonNegative(w.xray) && Below(w.xray, w.moved)
    && Sound(w, w.mem) && (!w.exposed ==> Sound(w, Load(w.file)))
    && (forall b | b in w.sent :: Tracked(w, b))
    && (forall b | b in w.orphans :: GoodBatch(w.node, b))
    && FromRequests(w)
    && PhaseOk(w)
  }

  /** What the panel has comes from requests. */
  ghost predicate FromRequests(w: World) {
    && (w.sent == {} ==> w.totals == map[] && w.orphans == [])
    && forall id | id in w.applied :: exists b :: b in w.sent && b.id == id
  }

  lemma DeltasBelow(base: Counters, x: Counters, y: Counters)
    requires Below(Deltas(base, y), Deltas(base, x))
    ensures forall stat :: Total(Deltas(base, y), stat) <= Total(Deltas(base, x), stat)
  {
    forall stat { TotalMonotone(Deltas(base, y), Deltas(base, x), stat); }
  }

  lemma DeltasAfterTransfer(base: Counters, x: Counters, name: string, v: int)
    ensures Deltas(base, x[name := v]) == Deltas(base, x)[name := Delta(Get(base, name), v)]
  {
  }

  lemma TransferRaisesDelta(base: Counters, x: Counters, name: string, bytes: nat)
    requires NonNegative(base) && NonNegative(x)
    ensures Delta(Get(base, name), Get(x, name) + bytes) - Get(Deltas(base, x), name) <= bytes
  {
  }

  lemma TransferMovesTotals(base: Counters, x: Counters, moved: Counters, name: string, bytes: nat, stat: Stat)
    requires NonNegative(base) && NonNegative(x)
    ensures Total(Deltas(base, x[name := Get(x, name) + bytes]), stat) - Total(Deltas(base, x), stat)
            <= Total(moved[name := Get(moved, name) + bytes], stat) - Total(moved, stat)
  {
    hide StatOf;
    var v := Get(x, name) + bytes;
    DeltasAfterTransfer(base, x, name, v);
    TransferRaisesDelta(base, x, name, bytes);
    TotalSet(Deltas(base, x), name, Delta(Get(base, name), v), stat);
    TotalSet(moved, name, Get(moved, name) + bytes, stat);
  }

  lemma TransferKeepsCovered(w: World, name: string, bytes: nat, owed: seq<TrafficRecord>, base: Counters)
    requires Covered(w, owed, base) && NonNegative(base) && NonNegative(w.xray)
    ensures Covered(Do(w, Transfer(name, bytes)), owed, base)
  {
    hide StatOf, Delta, Deltas, Total, RecordSum, Owed, NonNegative;
    var v := Do(w, Transfer(name, bytes));
    forall stat ensures CoveredAt(v, owed, base, stat) {
      TransferMovesTotals(base, w.xray, w.moved, name, bytes, stat);
      assert CoveredAt(w, owed, base, stat);
    }
  }

  lemma ResetKeepsCovered(w: World, gone: set<string>, zeroed: set<string>, owed: seq<TrafficRecord>, base: Counters)
    requires Covered(w, owed, base) && NonNegative(base) && NonNegative(w.xray)
    ensures Covered(Do(w, ResetCounters(gone, zeroed)), owed, base)
  {
    hide StatOf, Total, RecordSum, Owed;
    var v := Do(w, ResetCounters(gone, zeroed));
    DeltasBelow(base, w.xray, v.xray);
    forall stat ensures CoveredAt(v, owed, base, stat) {
      assert CoveredAt(w, owed, base, stat);
    }
  }

  /** Moving the base up to the counters just read turns the deltas into records owed to the panel. */
  lemma FreezeKeepsCovered(w: World, records: seq<TrafficRecord>, base: Counters)
    requires Covered(w, [], base) && Aggregates(records, Deltas(base, w.xray))
    ensures Covered(w, records, w.xray)
  {
    hide StatOf, Aggregates, Owed;
    var d := Deltas(w.xray, w.xray);
    forall stat ensures CoveredAt(w, records, w.xray, stat) {
      RecordsCarryDeltas(records, Deltas(base, w.xray), stat);
      SumZero(d.Keys, d, stat);
      assert CoveredAt(w, [], base, stat);
    }
  }

  /** What is frozen makes a good batch whenever there is something to report. */
  lemma FrozenIsGood(node: int, b: Batch, base: Counters, xray: Counters)
    requires NonNegative(base) && NonNegative(xray) && b.snapshot == Some(xray) && b.records != []
    requires Aggregates(b.records, Deltas(base, xray)) && Identifies(b.id, node, b.snapshot, b.records)
    ensures GoodBatch(node, b)
  {
    var d := Deltas(base, xray);
    RecordsNeedCounters(b.records, d);
    forall stat ensures 0 <= RecordSum(b.records, stat) <= Total(xray, stat) {
      RecordsCarryDeltas(b.records, d, stat);
      NonNegativeTotal(d, stat);
      TotalMonotone(d, xray, stat);
    }
    var r := b.records[0];
    var stat := Stat(r.userID, r.proxyID.value, if r.upload != 0 then Uplink else Downlink);
    RecordsCarryDeltas(b.records, d, stat);
    assert RecordSum(b.records, stat) > 0;
  }

  lemma {:induction false} SumZero(names: set<string>, c: Counters, stat: Stat)
    requires forall n | n in names :: Get(c, n) == 0
    ensures Sum(names, c, stat) == 0
  {
    if names != {} {
      var n :| n in names;
      SumPick(names, n, c, stat);
      SumZero(names - {n}, c, stat);
    }
  }

  lemma {:induction false} AddRecordsAdds(totals: map<Stat, int>, records: seq<TrafficRecord>, stat: Stat)
    ensures Get(AddRecords(totals, records), stat) == Get(totals, stat) + RecordSum(records, stat)
  {
    if records != [] {
      AddRecordsAdds(totals, records[..|records| - 1], stat);
    }
  }

  lemma {:induction false} OwedOfGood(node: int, orphans: seq<Batch>, applied: set<BatchID>, stat: Stat)
    requires forall b | b in orphans :: GoodBatch(node, b)
    ensures Owed(orphans, applied, stat) >= 0
  {
    if orphans != [] {
      OwedOfGood(node, orphans[..|orphans| - 1], applied, stat);
      assert orphans[|orphans| - 1] in orphans;
    }
  }

  /** Recording a batch takes it, and whatever shares its identity, off what is owed. */
  lemma {:induction false} OwedDrops(node: int, orphans: seq<Batch>, applied: set<BatchID>, b: Batch, stat: Stat)
    requires (forall o | o in orphans :: GoodBatch(node, o)) && b.id !in applied && GoodBatch(node, b)
    ensures Owed(orphans, applied + {b.id}, stat) <= Owed(orphans, applied, stat)
    ensures b in orphans ==> Owed(orphans, applied + {b.id}, stat) <= Owed(orphans, applied, stat) - RecordSum(b.records, stat)
  {
    if orphans != [] {
      var last := orphans[|orphans| - 1];
      OwedDrops(node, orphans[..|orphans| - 1], applied, b, stat);
      assert last in orphans;
    }
  }

  /** Recording what was owed turns it into counted traffic. */
  lemma ApplyKeepsSound(w: World, b: Batch, m: Memory)
    requires Enabled(w, PanelApply(b)) && b.id !in w.applied && GoodBatch(w.node, b) && Sound(w, m)
    requires forall o | o in w.orphans :: GoodBatch(w.node, o)
    requires b in w.orphans || m.pending == Some(b)
    ensures Sound(Do(w, PanelApply(b)), m)
  {
    hide Identifies, NonNegative, Total, Deltas, RecordSum, Owed, AddRecords;
    var v := Do(w, PanelApply(b));
    var base := if m.pending.Some? then m.pending.value.snapshot.value else m.committed;
    var before := if m.pending.Some? then Outstanding(w, m.pending.value) else [];
    var after := if m.pending.Some? then Outstanding(v, m.pending.value) else [];
    forall stat ensures CoveredAt(v, after, base, stat) {
      AddRecordsAdds(w.totals, b.records, stat);
      OwedDrops(w.node, w.orphans, w.applied, b, stat);
      NoRecords(stat);
      assert CoveredAt(w, before, base, stat);
    }
  }

  lemma NoRecords(stat: Stat)
    ensures RecordSum([], stat) == 0
  {
  }

  ghost predicate EnvironmentStep(s: Step) {
    s.Transfer? || s.ResetCounters?
  }

  lemma EnvironmentKeepsSound(w: World, s: Step, m: Memory)
    requires EnvironmentStep(s) && NonNegative(w.xray) && Sound(w, m)
    ensures Sound(Do(w, s), m)
  {
    hide Covered, RecordSum, Identifies;
    var owed := if m.pending.Some? then Outstanding(w, m.pending.value) else [];
    var base := if m.pending.Some? then m.pending.value.snapshot.value else m.committed;
    if s.Transfer? {
      TransferKeepsCovered(w, s.name, s.bytes, owed, base);
    } else {
      ResetKeepsCovered(w, s.gone, s.zeroed, owed, base);
    }
  }

  lemma OwedLess(w: World, owed: seq<TrafficRecord>, base: Counters)
    requires Covered(w, owed, base) && forall stat :: RecordSum(owed, stat) >= 0
    ensures Covered(w, [], base)
  {
    hide StatOf, Total, Deltas, Owed;
    forall stat ensures CoveredAt(w, [], base, stat) {
      assert CoveredAt(w, owed, base, stat) && RecordSum(owed, stat) >= 0;
      NoRecords(stat);
    }
  }

  lemma PrepareKeepsInv(w: World, s: Step)
    requires Inv(w) && s.Prepare? && Enabled(w, s)
    ensures Inv(Do(w, s))
  {
    hide StatOf, Deltas, Total, RecordSum, Owed, Identifies, Aggregates, Covered, Load;
    var v := Do(w, s);
    if w.mem.pending.None? && s.queryOk {
      var records := s.request.value.records;
      FreezeKeepsCovered(w, records, w.mem.committed);
      if records != [] {
        var b := v.mem.pending.value;
        FrozenIsGood(w.node, b, w.mem.committed, w.xray);
        OwedLess(w, records, w.xray);
      }
    }
    SameAccounts(w, v, v.mem);
    SameAccounts(w, v, Load(w.file));
    if v.phase.Calling? && v.phase.request.Some? && v.phase.request.value.batchID.None? {
      SameAccounts(w, v, Memory(v.phase.request.value.snapshot.value, None));
    }
  }

  lemma NonNegativeTotal(c: Counters, stat: Stat)
    requires NonNegative(c)
    ensures Total(c, stat) >= 0
  {
    TotalMonotone(map[], c, stat);
  }

  lemma RecordsNeedCounters(records: seq<TrafficRecord>, d: Counters)
    requires Aggregates(records, d) && records != []
    ensures d != map[]
  {
    var r := records[0];
    assert Total(map[], Stat(r.userID, r.proxyID.value, Uplink)) == 0;
    assert Total(map[], Stat(r.userID, r.proxyID.value, Downlink)) == 0;
  }

  lemma ApplyKeepsInv(w: World, b: Batch)
    requires Enabled(w, PanelApply(b)) && b.id !in w.applied && Inv(w)
    ensures Inv(Do(w, PanelApply(b)))
  {
    hide Sound, GoodBatch, Load, NonNegative, Below, AddRecords, Get;
    assert Tracked(w, b);
    ApplyKeepsSound(w, b, w.mem);
    if !w.exposed {
      ApplyKeepsSound(w, b, Load(w.file));
    }
    if w.phase.Calling? && w.phase.request.Some? && w.phase.request.value.batchID.None? {
      ApplyKeepsSound(w, b, Memory(w.phase.request.value.snapshot.value, None));
    }
    forall o | o in w.sent ensures Tracked(Do(w, PanelApply(b)), o) {
      assert Tracked(w, o);
    }
  }

  lemma GoodHasSnapshot(node: int, b: Batch)
    ensures GoodBatch(node, b) ==> b.snapshot.Some?
  {
  }

  /** What an agent's memory is worth depends only on the counters and on what the panel did. */
  lemma SameAccounts(w: World, v: World, m: Memory)
    requires w.xray == v.xray && w.moved == v.moved && w.totals == v.totals && w.applied == v.applied
    requires w.node == v.node && w.orphans == v.orphans
    ensures Sound(w, m) == Sound(v, m)
  {
    hide GoodBatch, NonNegative, Covered;
    if m.pending.Some? {
      if m.pending.value.snapshot.Some? {
        SameCovered(w, v, Outstanding(w, m.pending.value), m.pending.value.snapshot.value);
      }
      assert GoodBatch(w.node, m.pending.value) ==> m.pending.value.snapshot.Some? by { GoodHasSnapshot(w.node, m.pending.value); }
    } else {
      SameCovered(w, v, [], m.committed);
    }
  }

  lemma SameCovered(w: World, v: World, owed: seq<TrafficRecord>, base: Counters)
    requires w.xray == v.xray && w.moved == v.moved && w.totals == v.totals && w.applied == v.applied
    requires w.orphans == v.orphans
    ensures Covered(w, owed, base) == Covered(v, owed, base)
  {
    hide Total, Deltas, RecordSum, Owed, Get;
    forall stat ensures CoveredAt(w, owed, base, stat) == CoveredAt(v, owed, base, stat) {
    }
  }

  /** A batch that is accounted for elsewhere leaves its snapshot as the new base. */
  lemma SettledBatchCommits(w: World, m: Memory)
    requires Sound(w, m) && m.pending.Some? && (m.pending.value.id in w.applied || m.pending.value in w.orphans)
    ensures m.pending.value.snapshot.Some? && Sound(w, Memory(m.pending.value.snapshot.value, None))
  {
  }

  /** Clearing a batch early moves its records from pending to orphaned. */
  lemma OrphaningKeepsSound(w: World, v: World, b: Batch, m: Memory)
    requires Sound(w, m) && b !in w.orphans && b.id !in w.applied && m.pending == Some(b)
    requires v.orphans == w.orphans + [b]
    requires w.xray == v.xray && w.moved == v.moved && w.totals == v.totals && w.applied == v.applied && w.node == v.node
    ensures Sound(v, m)
  {
    hide NonNegative, Total, Deltas, RecordSum, Identifies;
    assert v.orphans[..|v.orphans| - 1] == w.orphans;
    assert b in v.orphans by { assert v.orphans[|v.orphans| - 1] == b; }
    var base := b.snapshot.value;
    forall stat ensures CoveredAt(v, [], base, stat) {
      assert CoveredAt(w, b.records, base, stat);
      NoRecords(stat);
    }
  }

  lemma ReplyOkKeepsInv(w: World)
    requires Inv(w) && Enabled(w, ReplyOk)
    ensures Inv(Do(w, ReplyOk))
  {
    hide Sound, GoodBatch, Load, NonNegative, Below;
    var v := Do(w, ReplyOk);
    if w.phase.request.Some? && w.phase.request.value.batchID.Some? {
      SettledBatchCommits(w, w.mem);
    }
    SameAccounts(w, v, v.mem);
    SameAccounts(w, v, Load(w.file));
    forall b | b in v.sent ensures Tracked(v, b) {
      assert Tracked(w, b);
    }
  }

  lemma SuccessInFlightKeepsInv(w: World)
    requires Inv(w) && Enabled(w, SuccessInFlight)
    ensures Inv(Do(w, SuccessInFlight))
  {
    hide Sound, GoodBatch, Load, NonNegative;
    var v := Do(w, SuccessInFlight);
    var b := MessageOf(w.phase.request.value);
    assert Tracked(w, b);
    if b in w.orphans {
      SameAccounts(w, v, w.mem);
      SameAccounts(w, v, Load(w.file));
    } else {
      assert v.orphans[|v.orphans| - 1] == b;
      OrphaningKeepsSound(w, v, b, w.mem);
      if !w.exposed {
        OrphaningKeepsSound(w, v, b, Load(w.file));
      }
    }
    SettledBatchCommits(v, w.mem);
    forall o | o in v.sent ensures Tracked(v, o) {
      assert Tracked(w, o);
    }
  }

  lemma RenameKeepsInv(w: World)
    requires Inv(w) && Enabled(w, Rename)
    ensures Inv(Do(w, Rename))
  {
    hide StatOf, Total, Deltas, RecordSum, Get, Aggregates, Identifies, Covered, Owed;
    var v := Do(w, Rename);
    SaveLoadRoundTrip(w.mem);
    SameAccounts(w, v, w.mem);
    forall b | b in v.sent ensures Tracked(v, b) {
      assert Tracked(w, b);
    }
  }

  /** Without the file everything Xray still counts is measured again: harmless while that is nothing, or nothing was sent. */
  lemma CrashUnreadKeepsInv(w: World)
    requires Enabled(w, CrashUnread) && Inv(w) && !DoubleCounting(w, CrashUnread)
    ensures Inv(Do(w, CrashUnread))
  {
    hide StatOf, GoodBatch, Load, NonNegative, Sound, Total, Below;
    var v := Do(w, CrashUnread);
    StartsSound(w);
    if Abandons(w) {
      var b := w.mem.pending.value;
      assert v.orphans[|v.orphans| - 1] == b;
      assert Tracked(w, b);
      if !w.exposed { OrphaningKeepsSound(w, v, b, Load(w.file)); }
    } else if !w.exposed {
      SameAccounts(w, v, Load(w.file));
    }
    forall o | o in v.sent ensures Tracked(v, o) {
      assert Tracked(w, o);
    }
  }

  lemma StartsSound(w: World)
    requires Enabled(w, CrashUnread) && Inv(w) && !DoubleCounting(w, CrashUnread)
    ensures Sound(Do(w, CrashUnread), Memory(map[], None)) && Load(Unreadable) == Memory(map[], None)
  {
    hide Inv, DoubleCounting, Do, Enabled;
    var v := Do(w, CrashUnread);
    forall stat ensures CoveredAt(v, [], map[], stat) {
      RecordedWithinMoved(w, stat);
      StartCounts(w, stat);
      NoRecords(stat);
      NothingTotals(stat);
    }
  }

  /** With what may still arrive of the batch in memory, the panel counts at most what was transferred; and nothing at all
      when nothing was sent. */
  lemma RecordedWithinMoved(w: World, stat: Stat)
    requires Enabled(w, CrashUnread) && Inv(w)
    ensures var v := Do(w, CrashUnread);
            Get(v.totals, stat) + Owed(v.orphans, v.applied, stat) <= if w.sent == {} then 0 else Total(w.moved, stat)
  {
    hide StatOf, GoodBatch, Total, Deltas, RecordSum, Tracked, PhaseOk;
    var v := Do(w, CrashUnread);
    SoundBounds(w, w.mem, stat);
    if Abandons(w) {
      assert v.orphans[..|v.orphans| - 1] == w.orphans;
      assert Outstanding(w, w.mem.pending.value) == w.mem.pending.value.records;
    } else {
      assert v.orphans == w.orphans;
    }
  }

  /** What Xray counts was transferred, and is nothing after a harmful restart was ruled out while something was sent. */
  lemma StartCounts(w: World, stat: Stat)
    requires Enabled(w, CrashUnread) && Inv(w) && !DoubleCounting(w, CrashUnread)
    ensures Do(w, CrashUnread).xray == w.xray && Do(w, CrashUnread).moved == w.moved
    ensures Total(Deltas(map[], w.xray), stat) <= if w.sent == {} then Total(w.moved, stat) else 0
  {
    hide StatOf, Total, Deltas, Sound, Tracked, PhaseOk;
    TotalOfGrowth(map[], w.xray, stat);
    TotalMonotone(w.xray, w.moved, stat);
    NothingTotals(stat);
    if w.sent != {} { TotalMonotone(w.xray, map[], stat); }
  }

  lemma AgentStepKeepsInv(w: World, s: Step)
    requires Inv(w) && Enabled(w, s) && !DoubleCounting(w, s) && !EnvironmentStep(s) && !s.Prepare? && !s.PanelApply?
    requires !s.CrashUnread?
    ensures Inv(Do(w, s))
  {
    hide Sound, GoodBatch, Load, NonNegative, PrepareEffect;
    if s.Rename? {
      RenameKeepsInv(w);
    } else if s.ReplyOk? {
      ReplyOkKeepsInv(w);
    } else if s.SuccessInFlight? {
      SuccessInFlightKeepsInv(w);
    } else {
      var v := Do(w, s);
      SameAccounts(w, v, w.mem);
      SameAccounts(w, v, Load(w.file));
      if w.phase.Calling? && w.phase.request.Some? && w.phase.request.value.snapshot.Some? {
        SameAccounts(w, v, Memory(w.phase.request.value.snapshot.value, None));
      }
      PendingIsGood(w, w.mem);
      forall b | b in v.sent ensures Tracked(v, b) {
        assert b in w.sent ==> Tracked(w, b);
      }
    }
  }

  lemma PendingIsGood(w: World, m: Memory)
    requires Sound(w, m)
    ensures m.pending.Some? ==> GoodBatch(w.node, m.pending.value) && m.pending.value.snapshot.Some?
  {
  }

  /** Every step that cannot count twice keeps the invariant: failed writes, lost and premature replies included. */
  lemma StepKeepsInv(w: World, s: Step)
    requires Inv(w) && Enabled(w, s) && !DoubleCounting(w, s)
    ensures Inv(Do(w, s))
  {
    hide Sound, GoodBatch, Load, NonNegative, PrepareEffect;
    if EnvironmentStep(s) {
      EnvironmentKeepsInv(w, s);
    } else if s.Prepare? {
      PrepareKeepsInv(w, s);
    } else if s.PanelApply? {
      if s.batch.id !in w.applied { ApplyKeepsInv(w, s.batch); }
    } else if s.CrashUnread? {
      CrashUnreadKeepsInv(w);
    } else {
      AgentStepKeepsInv(w, s);
    }
  }

  lemma EnvironmentMoves(w: World, s: Step)
    requires NonNegative(w.xray) && Below(w.xray, w.moved) && EnvironmentStep(s)
    ensures NonNegative(Do(w, s).xray) && Below(Do(w, s).xray, Do(w, s).moved)
  {
    hide StatOf;
  }

  lemma EnvironmentKeepsInv(w: World, s: Step)
    requires Inv(w) && EnvironmentStep(s)
    ensures Inv(Do(w, s))
  {
    hide Sound, GoodBatch, Load, Below, NonNegative;
    EnvironmentMoves(w, s);
    EnvironmentKeepsSound(w, s, w.mem);
    if !w.exposed {
      EnvironmentKeepsSound(w, s, Load(w.file));
    }
    if w.phase.Calling? && w.phase.request.Some? {
      var p := w.phase.request.value;
      if p.batchID.None? { EnvironmentKeepsSound(w, s, Memory(p.snapshot.value, None)); }
    }
    forall b | b in w.sent ensures Tracked(Do(w, s), b) {
      assert Tracked(w, b);
    }
  }

  /** No step of the run can count twice. */
  ghost predicate NoDoubleCounting(node: int, steps: seq<Step>) {
    steps == [] ||
    (var front := steps[..|steps| - 1];
     NoDoubleCounting(node, front) &&
     (After(node, front).Some? ==> !DoubleCounting(After(node, front).value, steps[|steps| - 1])))
  }

  lemma {:induction false} ReachableInv(node: int, steps: seq<Step>)
    requires After(node, steps).Some? && NoDoubleCounting(node, steps)
    ensures Inv(After(node, steps).value) && After(node, steps).value.node == node
  {
    hide Inv;
    if steps != [] {
      ReachableInv(node, steps[..|steps| - 1]);
      StepKeepsInv(After(node, steps[..|steps| - 1]).value, steps[|steps| - 1]);
    } else {
      InitInv(node);
    }
  }

  lemma InitInv(node: int)
    ensures Inv(Init(node))
  {
  }

  /** No over-count: after any run (lost replies, resends, repeated deliveries, premature successes, Xray resets, failed
      writes, crashes while the file does not lag behind what was sent, restarts without the file while nothing was sent
      or Xray counts nothing) the panel total of each user, proxy and
      direction, with what is frozen or cleared and still unrecorded, is at most the bytes transferred. */
  lemma NoOverCount(node: int, steps: seq<Step>, stat: Stat)
    requires After(node, steps).Some? && NoDoubleCounting(node, steps)
    ensures var w := After(node, steps).value;
            && Get(w.totals, stat) <= Total(w.moved, stat)
            && Get(w.totals, stat) + Owed(w.orphans, w.applied, stat) <= Total(w.moved, stat)
            && (w.mem.pending.Some? ==>
                  Get(w.totals, stat) + Owed(w.orphans, w.applied, stat)
                    + RecordSum(Outstanding(w, w.mem.pending.value), stat) <= Total(w.moved, stat))
  {
    ReachableInv(node, steps);
    var w := After(node, steps).value;
    SoundBounds(w, w.mem, stat);
    OwedOfGood(node, w.orphans, w.applied, stat);
  }

  lemma SoundBounds(w: World, m: Memory, stat: Stat)
    requires Sound(w, m) && NonNegative(w.xray)
    ensures Get(w.totals, stat) + Owed(w.orphans, w.applied, stat) <= Total(w.moved, stat)
    ensures m.pending.Some? ==>
              Get(w.totals, stat) + Owed(w.orphans, w.applied, stat) + RecordSum(Outstanding(w, m.pending.value), stat)
                <= Total(w.moved, stat)
  {
    var owed := if m.pending.Some? then Outstanding(w, m.pending.value) else [];
    var base := if m.pending.Some? then m.pending.value.snapshot.value else m.committed;
    assert CoveredAt(w, owed, base, stat);
    NonNegativeTotal(Deltas(base, w.xray), stat);
    NoRecords(stat);
  }
}
