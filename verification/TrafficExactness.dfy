/** When counters only grow, every byte is counted exactly once. */
module TrafficExactness {
  import opened Common
  import opened Counters
  import opened TrafficReporting
  import opened BatchIdentity
  import opened TrafficAgent
  import opened TrafficProtocol

  /** No counter falls, no success comes before the batch is recorded, and the agent never starts without its file. */
  ghost predicate NoLosses(steps: seq<Step>) {
    forall i | 0 <= i < |steps| :: !Losing(steps[i])
  }

  /** Every batch the panel recorded rests on counters no higher than `level`. */
  ghost predicate AppliedBelow(applied: set<BatchID>, level: Counters) {
    forall id, c: Counters | id in applied && multiset(id.counters) == multiset(Entries(c)) :: Below(c, level)
  }

  ghost predicate Counted(w: World, level: Counters) {
    forall stat :: Get(w.totals, stat) == Total(level, stat)
  }

  ghost predicate Exact(w: World, m: Memory)
    requires m.pending.Some? ==> m.pending.value.snapshot.Some?
  {
    match m.pending
    case None => Below(m.committed, w.xray) && Counted(w, m.committed) && AppliedBelow(w.applied, m.committed)
    case Some(b) =>
      && Below(b.snapshot.value, w.xray)
      && if b.id in w.applied then
           Counted(w, b.snapshot.value) && AppliedBelow(w.applied, b.snapshot.value)
         else
           && Below(m.committed, b.snapshot.value) && Counted(w, m.committed) && AppliedBelow(w.applied, m.committed)
           && (forall stat :: RecordSum(b.records, stat) == Total(b.snapshot.value, stat) - Total(m.committed, stat))
  }

  // ---- The file ----

  /** The counters from which a restarted agent would measure on, once what the file holds is acknowledged. */
  ghost function Base(m: Memory): Counters
    requires m.pending.Some? ==> m.pending.value.snapshot.Some?
  {
    if m.pending.Some? then m.pending.value.snapshot.value else m.committed
  }

  /** The counters up to which the panel counts, once it has recorded what was sent. */
  ghost function Reach(w: World): Counters
    requires w.mem.pending.Some? ==> w.mem.pending.value.snapshot.Some?
  {
    if w.mem.pending.Some? && (w.mem.pending.value in w.sent || w.mem.pending.value.id in w.applied)
    then w.mem.pending.value.snapshot.value else w.mem.committed
  }

  /** The file is as good as memory, but for a batch that is frozen and neither saved nor sent. */
  ghost predicate UpToDate(w: World) {
    var f := Load(w.file);
    && Sound(w, f) && Exact(w, f)
    && (f.pending.Some? && f.pending != w.mem.pending ==> f.pending.value.id in w.applied)
    && (w.mem.pending.Some? && f.pending != w.mem.pending ==>
          w.mem.pending.value.id !in w.applied && w.mem.pending.value !in w.sent)
  }

  /** A restart would measure again something that was sent. */
  ghost predicate Behind(w: World)
    requires w.mem.pending.Some? ==> w.mem.pending.value.snapshot.Some?
  {
    var f := Load(w.file);
    && (f.pending.Some? ==> GoodBatch(w.node, f.pending.value) && f.pending.value.id in w.applied)
    && NonNegative(Base(f)) && Below(Base(f), w.xray)
    && exists stat :: Total(Base(f), stat) < Total(Reach(w), stat)
  }

  ghost predicate ExactInv(w: World) {
    && Inv(w)
    && w.moved == w.xray && w.orphans == []
    && Exact(w, w.mem)
    && (if w.exposed then Behind(w) else UpToDate(w))
    && (w.phase.Calling? && w.phase.request.Some? && w.phase.request.value.batchID.None? ==>
          Exact(w, Memory(w.phase.request.value.snapshot.value, None)))
  }

  // ---- Single steps ----

  lemma TransferKeepsExact(w: World, s: Step, m: Memory)
    requires s.Transfer? && (m.pending.Some? ==> m.pending.value.snapshot.Some?) && Exact(w, m)
    requires NonNegative(w.xray)
    ensures Exact(Do(w, s), m)
  {
    hide StatOf, Total, RecordSum;
    var v := Do(w, s);
    assert Below(w.xray, v.xray);
  }

  lemma TransferKeepsExactInv(w: World, s: Step)
    requires ExactInv(w) && s.Transfer?
    ensures ExactInv(Do(w, s))
  {
    hide StatOf, Exact, Total, RecordSum, Covered, Identifies, Load, Save;
    StepKeepsInv(w, s);
    var v := Do(w, s);
    assert Below(w.xray, v.xray);
    TransferKeepsExact(w, s, w.mem);
    if !w.exposed {
      TransferKeepsExact(w, s, Load(w.file));
    }
    if w.phase.Calling? && w.phase.request.Some? && w.phase.request.value.batchID.None? {
      TransferKeepsExact(w, s, Memory(w.phase.request.value.snapshot.value, None));
    }
  }

  /** What freezing reads is the growth since the last commit, so some counter moved strictly past it. */
  lemma FreezeExact(w: World, records: seq<TrafficRecord>, c: Counters)
    requires NonNegative(c) && Below(c, w.xray) && Aggregates(records, Deltas(c, w.xray))
    ensures forall stat :: RecordSum(records, stat) == Total(w.xray, stat) - Total(c, stat)
    ensures records != [] ==> !Below(w.xray, c)
  {
    hide StatOf;
    forall stat ensures RecordSum(records, stat) == Total(w.xray, stat) - Total(c, stat) {
      RecordsCarryDeltas(records, Deltas(c, w.xray), stat);
      TotalOfGrowth(c, w.xray, stat);
    }
    if records != [] && Below(w.xray, c) {
      var r := records[0];
      var stat := Stat(r.userID, r.proxyID.value, if r.upload != 0 then Uplink else Downlink);
      TotalOfGrowth(c, w.xray, stat);
      TotalMonotone(c, w.xray, stat);
      TotalMonotone(w.xray, c, stat);
      assert false;
    }
  }

  lemma AppliedBelowRises(applied: set<BatchID>, low: Counters, high: Counters)
    requires AppliedBelow(applied, low) && Below(low, high)
    ensures AppliedBelow(applied, high)
  {
    hide StatOf;
    forall id, c: Counters | id in applied && multiset(id.counters) == multiset(Entries(c)) ensures Below(c, high) {
      assert Below(c, low);
    }
  }

  lemma PrepareKeepsExact(w: World, s: Step)
    requires ExactInv(w) && s.Prepare? && Enabled(w, s)
    ensures ExactInv(Do(w, s))
    ensures w.mem.pending.None? && Do(w, s).mem.pending.Some? ==>
              Do(w, s).mem.pending.value.id !in w.applied
                  && forall b | b in w.sent :: b.id != Do(w, s).mem.pending.value.id
  {
    hide StatOf, Total, Covered, Owed, RecordSum, Load, Sound, Identifies, Aggregates, NonNegative;
    StepKeepsInv(w, s);
    var v := Do(w, s);
    if w.mem.pending.None? && s.queryOk {
      PrepareFreezesExactly(w, s);
      SameAccounts(w, v, Load(w.file));
      forall b | b in w.sent ensures b.id in w.applied {
        assert Tracked(w, b);
      }
      if v.mem.pending.Some? {
        assert Reach(v) == Reach(w);
      }
    } else {
      SameAccounts(w, v, Load(w.file));
    }
  }

  lemma PrepareFreezesExactly(w: World, s: Step)
    requires ExactInv(w) && s.Prepare? && Enabled(w, s) && w.mem.pending.None? && s.queryOk
    ensures var v := Do(w, s);
            && (v.mem.pending.Some? ==> v.mem.pending.value.snapshot.Some? && v.mem.pending.value.id !in w.applied)
            && Exact(v, v.mem)
            && (v.phase.Calling? ==> v.phase.request.Some? && v.phase.request.value.snapshot.Some?
                                      && Exact(v, Memory(v.phase.request.value.snapshot.value, None)))
  {
    hide StatOf, Total, Covered, Owed, Load, GoodBatch, Behind, UpToDate;
    var v := Do(w, s);
    var c, records := w.mem.committed, s.request.value.records;
    FreezeExact(w, records, c);
    if records != [] {
      var id := s.request.value.batchID.value;
      assert id in w.applied ==> multiset(id.counters) == multiset(Entries(w.xray)) && Below(w.xray, c);
    } else {
      AppliedBelowRises(w.applied, c, w.xray);
      forall stat { NoRecords(stat); }
    }
  }

  lemma ApplyKeepsExact(w: World, b: Batch)
    requires ExactInv(w) && b in w.sent && b.id !in w.applied
    ensures ExactInv(Do(w, PanelApply(b)))
  {
    hide StatOf, Total, Covered, Owed, RecordSum, Load, Sound, NonNegative, Exact, AddRecords, Identifies;
    StepKeepsInv(w, PanelApply(b));
    var v := Do(w, PanelApply(b));
    assert Tracked(w, b);
    ApplyExactFor(w, b, w.mem);
    if !w.exposed {
      ApplyExactFor(w, b, Load(w.file));
    } else {
      assert Reach(v) == Reach(w);
    }
  }

  lemma ApplyExactFor(w: World, b: Batch, m: Memory)
    requires m.pending == Some(b) && GoodBatch(w.node, b) && Exact(w, m) && b in w.sent && b.id !in w.applied
    ensures Exact(Do(w, PanelApply(b)), m)
  {
    hide StatOf, Total, RecordSum, AddRecords;
    var v := Do(w, PanelApply(b));
    var s := b.snapshot.value;
    forall stat ensures Get(v.totals, stat) == Total(s, stat) {
      AddRecordsAdds(w.totals, b.records, stat);
    }
    forall id, c: Counters | id in v.applied && multiset(id.counters) == multiset(Entries(c)) ensures Below(c, s) {
      if id == b.id {
        IdentityIsFaithful(id, BatchID(id.nodeID, id.records, id.counters), w.node, w.node, b.snapshot, Some(c), b.records, b.records);
      } else {
        assert Below(c, m.committed);
      }
    }
  }

  /** The step after which a crash would make the agent measure again what it has sent. */
  lemma SendExposes(w: World)
    requires ExactInv(w) && Enabled(w, Send)
    ensures Do(w, Send).exposed ==> Behind(Do(w, Send))
  {
    hide StatOf, Total, Covered, Owed, RecordSum, Load, Save, Identifies, Entries;
    var v := Do(w, Send);
    var b := w.mem.pending.value;
    assert b == MessageOf(w.phase.request.value);
    if w.exposed {
      var stat :| Total(Base(Load(w.file)), stat) < Total(Reach(w), stat);
      if Reach(w) != Reach(v) { TotalMonotone(w.mem.committed, b.snapshot.value, stat); }
      assert Total(Base(Load(v.file)), stat) < Total(Reach(v), stat);
    } else if v.exposed {
      var f := Load(w.file);
      var stat :| RecordSum(b.records, stat) > 0;
      assert Get(w.totals, stat) == Total(w.mem.committed, stat) && Get(w.totals, stat) == Total(Base(f), stat);
      assert RecordSum(b.records, stat) == Total(b.snapshot.value, stat) - Total(w.mem.committed, stat);
      assert Total(Base(Load(v.file)), stat) < Total(Reach(v), stat);
      BaseIsBelow(w, f);
    }
  }

  lemma BaseIsBelow(w: World, m: Memory)
    requires Sound(w, m) && (m.pending.Some? ==> m.pending.value.snapshot.Some?) && Exact(w, m)
    ensures NonNegative(Base(m)) && (m.pending.None? || m.pending.value.id in w.applied ==> Below(Base(m), w.xray))
    ensures m.pending.Some? ==> GoodBatch(w.node, m.pending.value)
  {
  }

  lemma SendKeepsExact(w: World)
    requires ExactInv(w) && Enabled(w, Send)
    ensures ExactInv(Do(w, Send))
  {
    hide StatOf, Total, Covered, Owed, RecordSum, Load, Save, Identifies, Entries, Behind, GoodBatch, Exact, NonNegative;
    StepKeepsInv(w, Send);
    SendExposes(w);
    var v := Do(w, Send);
    SameAccounts(w, v, Load(w.file));
    SameExact(w, v, w.mem);
    if !v.exposed {
      PendingIsGood(w, Load(w.file));
      SameExact(w, v, Load(w.file));
    }
  }

  lemma SameExact(w: World, v: World, m: Memory)
    requires w.xray == v.xray && w.totals == v.totals && w.applied == v.applied
    requires m.pending.Some? ==> m.pending.value.snapshot.Some?
    ensures Exact(w, m) == Exact(v, m)
  {
    hide StatOf, Total, RecordSum, Entries, Below, AppliedBelow;
    assert forall level :: Counted(w, level) == Counted(v, level);
  }

  lemma RenameKeepsExact(w: World)
    requires ExactInv(w) && Enabled(w, Rename)
    ensures ExactInv(Do(w, Rename))
  {
    hide StatOf, Total, Covered, Owed, RecordSum, Identifies, Entries, Behind, NonNegative;
    StepKeepsInv(w, Rename);
    var v := Do(w, Rename);
    SaveLoadRoundTrip(w.mem);
    SameAccounts(w, v, w.mem);
    SameExact(w, v, w.mem);
  }

  /** An acknowledged batch was recorded, so memory goes on from where the panel counts. */
  lemma ReplyOkKeepsExact(w: World)
    requires ExactInv(w) && Enabled(w, ReplyOk)
    ensures ExactInv(Do(w, ReplyOk))
  {
    hide StatOf, Total, Covered, Owed, RecordSum, Identifies, Entries, NonNegative, Sound, Load, GoodBatch, AppliedBelow;
    StepKeepsInv(w, ReplyOk);
    var v := Do(w, ReplyOk);
    if !w.exposed {
      PendingIsGood(w, Load(w.file));
      SameAccounts(w, v, Load(w.file));
      SameExact(w, v, Load(w.file));
    } else {
      PendingIsGood(w, w.mem);
      var f := Load(w.file);
      if f.pending.Some? { GoodHasSnapshot(w.node, f.pending.value); }
      var stat :| Total(Base(f), stat) < Total(Reach(w), stat);
      assert w.mem.pending.None? ==> Get(w.totals, stat) == Total(w.mem.committed, stat);
      assert w.mem.pending.Some? ==> Reach(w) == Reach(v);
      assert Counted(v, v.mem.committed);
      assert Get(v.totals, stat) == Total(v.mem.committed, stat);
      assert Total(Base(f), stat) < Total(Reach(v), stat);
    }
  }

  /** The steps that leave the accounts alone: half-written files, failed writes, lost replies. */
  lemma QuietStepKeepsExact(w: World, s: Step)
    requires ExactInv(w) && Enabled(w, s)
    requires s.WriteTemp? || s.AckSaveFailed? || s.BatchSaveFailed? || s.ReplyLost?
    ensures ExactInv(Do(w, s))
  {
    hide StatOf, Total, Covered, Owed, RecordSum, Identifies, Entries, NonNegative, Sound, Load, GoodBatch, Exact;
    StepKeepsInv(w, s);
    var v := Do(w, s);
    PendingIsGood(w, w.mem);
    SameExact(w, v, w.mem);
    if !w.exposed {
      PendingIsGood(w, Load(w.file));
      SameAccounts(w, v, Load(w.file));
      SameExact(w, v, Load(w.file));
    }
    if w.phase.Calling? && w.phase.request.Some? && w.phase.request.value.batchID.None? {
      SameExact(w, v, Memory(w.phase.request.value.snapshot.value, None));
    }
  }

  lemma CrashKeepsExact(w: World)
    requires Enabled(w, Crash) && ExactInv(w) && !w.exposed
    ensures ExactInv(Do(w, Crash))
  {
    hide StatOf, Total, Covered, Owed, RecordSum, Identifies, Entries, NonNegative, Sound, Load, GoodBatch, Exact;
    StepKeepsInv(w, Crash);
    var v := Do(w, Crash);
    PendingIsGood(w, Load(w.file));
    SameAccounts(w, v, Load(w.file));
    SameExact(w, v, Load(w.file));
  }

  lemma StepKeepsExact(w: World, s: Step)
    requires ExactInv(w) && Enabled(w, s) && !DoubleCounting(w, s) && !Losing(s)
    ensures ExactInv(Do(w, s))
  {
    hide ExactInv, Do;
    match s
    case Transfer(_, _) => TransferKeepsExactInv(w, s);
    case Prepare(_, _, _) => PrepareKeepsExact(w, s);
    case Rename => RenameKeepsExact(w);
    case Send => SendKeepsExact(w);
    case PanelApply(batch) =>
      if batch.id in w.applied { NothingToApply(w, batch); } else { ApplyKeepsExact(w, batch); }
    case ReplyOk => ReplyOkKeepsExact(w);
    case Crash => CrashKeepsExact(w);
    case WriteTemp(_) => QuietStepKeepsExact(w, s);
    case AckSaveFailed => QuietStepKeepsExact(w, s);
    case BatchSaveFailed => QuietStepKeepsExact(w, s);
    case ReplyLost => QuietStepKeepsExact(w, s);
    case PanelForgets(id) => NothingToForget(w, id);
  }

  lemma NothingToForget(w: World, id: BatchID)
    requires id !in w.applied
    ensures Do(w, PanelForgets(id)) == w
  {
    assert w.applied - {id} == w.applied;
  }

  lemma NothingToApply(w: World, b: Batch)
    requires b in w.sent && b.id in w.applied
    ensures Do(w, PanelApply(b)) == w
  {
  }

  lemma InitExact(node: int)
    ensures ExactInv(Init(node))
  {
    InitInv(node);
  }

  lemma {:induction false} ReachableExact(node: int, steps: seq<Step>)
    requires After(node, steps).Some? && NoDoubleCounting(node, steps) && NoLosses(steps)
    ensures ExactInv(After(node, steps).value)
  {
    hide ExactInv, Do, Enabled;
    if steps != [] {
      ReachableExact(node, steps[..|steps| - 1]);
      StepKeepsExact(After(node, steps[..|steps| - 1]).value, steps[|steps| - 1]);
    } else {
      InitExact(node);
    }
  }

  /** Exactly once: in a run without falling counters, premature successes and lost files, failed writes included, whenever no batch
      is pending the panel total is what the agent has committed, and with what Xray has counted since it is all that
      was transferred. */
  lemma ExactlyOnce(node: int, steps: seq<Step>, stat: Stat)
    requires After(node, steps).Some? && NoDoubleCounting(node, steps) && NoLosses(steps)
    requires After(node, steps).value.mem.pending.None?
    ensures var w := After(node, steps).value;
            Get(w.totals, stat) == Total(w.mem.committed, stat) &&
            Get(w.totals, stat) + Total(Deltas(w.mem.committed, w.xray), stat) == Total(w.moved, stat)
  {
    hide StatOf;
    ReachableExact(node, steps);
    var w := After(node, steps).value;
    TotalOfGrowth(w.mem.committed, w.xray, stat);
  }

  /** Each newly frozen batch has an identity the panel has never recorded and no request ever carried. */
  lemma NewBatchIsNew(node: int, steps: seq<Step>, s: Step)
    requires After(node, steps).Some? && NoDoubleCounting(node, steps) && NoLosses(steps)
    requires s.Prepare? && Enabled(After(node, steps).value, s)
    requires After(node, steps).value.mem.pending.None? && Do(After(node, steps).value, s).mem.pending.Some?
    ensures var w, id := After(node, steps).value, Do(After(node, steps).value, s).mem.pending.value.id;
            id !in w.applied && forall b | b in w.sent :: b.id != id
  {
    hide ExactInv;
    ReachableExact(node, steps);
    PrepareKeepsExact(After(node, steps).value, s);
  }

  // ---- Undisturbed heartbeats ----

  /** Steps that neither crash, fail, lose nor forget anything. */
  ghost predicate Undisturbed(steps: seq<Step>) {
    forall i | 0 <= i < |steps| ::
      steps[i].Transfer? || steps[i].Prepare? || steps[i] == WriteTemp(true) || steps[i].Rename? || steps[i].Send? ||
      steps[i].PanelApply? || steps[i].ReplyOk?
  }

  lemma {:induction false} UndisturbedIsSafe(node: int, steps: seq<Step>, more: seq<Step>)
    requires Undisturbed(more)
    ensures NoDoubleCounting(node, steps) ==> NoDoubleCounting(node, steps + more)
    ensures NoLosses(steps) ==> NoLosses(steps + more)
  {
    if more == [] {
      assert steps + more == steps;
    } else {
      UndisturbedIsSafe(node, steps, more[..|more| - 1]);
      assert (steps + more)[..|steps + more| - 1] == steps + more[..|more| - 1];
    }
  }

  lemma UndisturbedJoin(a: seq<Step>, b: seq<Step>)
    requires Undisturbed(a) && Undisturbed(b)
    ensures Undisturbed(a + b)
  {
  }

  /** An idle agent resends its pending batch, and the panel has it afterwards. */
  lemma ResendIsRecorded(node: int, steps: seq<Step>, w: World) returns (more: seq<Step>, v: World)
    requires Reached(node, steps, w) && w.phase.Idle? && w.mem.pending.Some? && w.mem.pending.value.snapshot.Some?
    ensures Undisturbed(more) && Reached(node, steps + more, v)
    ensures var b := w.mem.pending.value;
            v == w.(phase := Calling(Some(Prepared(b.snapshot, b.records, Some(b.id)))), sent := w.sent + {b},
                    exposed := v.exposed, applied := w.applied + {b.id},
                    totals := if b.id in w.applied then w.totals else AddRecords(w.totals, b.records))
  {
    hide StatOf, AddRecords, Save, Load, After;
    var b := w.mem.pending.value;
    var p := Prepared(b.snapshot, b.records, Some(b.id));
    more := [Prepare(true, w.mem, Some(p)), Send, PanelApply(b)];
    var all := Extend(node, steps, w, more[0]);
    var w1 := w.(phase := Calling(Some(p)));
    all := Extend(node, all, w1, Send);
    var w2 := Do(w1, Send);
    all := Extend(node, all, w2, PanelApply(b));
    v := Do(w2, PanelApply(b));
    assert b.id in w.applied ==> w.applied + {b.id} == w.applied;
    assert all == steps + more;
  }

  /** A success reply clears a recorded batch, and the write after it succeeds. */
  lemma ReplyIsSaved(node: int, steps: seq<Step>, w: World, b: Batch) returns (more: seq<Step>, v: World)
    requires Reached(node, steps, w) && b.snapshot.Some? && b in w.sent && b.id in w.applied && w.mem.pending == Some(b)
    requires w.phase == Calling(Some(Prepared(b.snapshot, b.records, Some(b.id))))
    ensures Undisturbed(more) && Reached(node, steps + more, v)
    ensures v.mem == Memory(b.snapshot.value, None) && v.phase.Idle?
    ensures v == w.(mem := v.mem, phase := v.phase, file := v.file, temp := v.temp, exposed := v.exposed)
  {
    hide StatOf, Save, After;
    more := [ReplyOk, WriteTemp(true), Rename];
    var m := Memory(b.snapshot.value, None);
    var all := Extend(node, steps, w, ReplyOk);
    var w1 := w.(mem := m, phase := SavingAck);
    all := Extend(node, all, w1, WriteTemp(true));
    var w2 := w1.(temp := Complete(Save(m)));
    all := Extend(node, all, w2, Rename);
    v := Do(w2, Rename);
    assert all == steps + more;
  }

  /** One undisturbed heartbeat with a batch that is pending in an idle agent clears it and commits its snapshot. */
  lemma ResendAcknowledges(node: int, steps: seq<Step>, w: World) returns (more: seq<Step>, v: World)
    requires Reached(node, steps, w) && w.phase.Idle? && w.mem.pending.Some? && w.mem.pending.value.snapshot.Some?
    ensures Undisturbed(more) && Reached(node, steps + more, v)
    ensures var b := w.mem.pending.value;
            && v.mem == Memory(b.snapshot.value, None) && b.id in v.applied && v.phase.Idle?
            && v.xray == w.xray && v.moved == w.moved && v.node == w.node && v.sent == w.sent + {b}
            && v.applied == w.applied + {b.id}
            && v.totals == if b.id in w.applied then w.totals else AddRecords(w.totals, b.records)
  {
    hide StatOf, AddRecords, Undisturbed, Reached;
    var m1, w1 := ResendIsRecorded(node, steps, w);
    var m2;
    m2, v := ReplyIsSaved(node, steps + m1, w1, w.mem.pending.value);
    more := m1 + m2;
    UndisturbedJoin(m1, m2);
    assert steps + m1 + m2 == steps + more;
  }

  /** A pending batch is never stuck: from any reachable idle state one undisturbed heartbeat clears it and commits its
      snapshot. */
  lemma PendingCanBeAcknowledged(node: int, steps: seq<Step>) returns (more: seq<Step>)
    requires After(node, steps).Some? && NoDoubleCounting(node, steps)
    requires After(node, steps).value.phase.Idle? && After(node, steps).value.mem.pending.Some?
    ensures After(node, steps + more).Some? && Undisturbed(more)
    ensures var b, v := After(node, steps).value.mem.pending.value, After(node, steps + more).value;
            b.snapshot.Some? && v.mem == Memory(b.snapshot.value, None) && b.id in v.applied
  {
    hide StatOf;
    ReachableInv(node, steps);
    var w := After(node, steps).value;
    var v: World;
    more, v := ResendAcknowledges(node, steps, w);
  }

  /** One undisturbed heartbeat of an idle agent with nothing pending: the panel gains the deltas, provided their batch
      has an identity of its own. */
  lemma HeartbeatCounts(node: int, steps: seq<Step>, w: World) returns (more: seq<Step>, v: World)
    requires Reached(node, steps, w) && w.phase.Idle? && w.mem.pending.None?
    requires exists stat :: Total(Deltas(w.mem.committed, w.xray), stat) != 0
    requires forall id | id in w.applied :: multiset(id.counters) != multiset(Entries(w.xray))
    ensures Undisturbed(more) && Reached(node, steps + more, v) && v.moved == w.moved
    ensures forall stat :: Get(v.totals, stat) == Get(w.totals, stat) + Total(Deltas(w.mem.committed, w.xray), stat)
  {
    hide StatOf, AddRecords, Save, Load, Total, Deltas, PrepareEffect, Aggregates, Do, Enabled, After, Undisturbed;
    var d := Deltas(w.mem.committed, w.xray);
    var b := FreshBatch(w);
    var m1, w1 := FreezeAndSave(node, steps, w, b);
    var m2;
    m2, v := SendAndRecord(node, steps + m1, w1, b);
    more := m1 + m2;
    UndisturbedJoin(m1, m2);
    assert steps + m1 + m2 == steps + more;
    forall stat ensures Get(v.totals, stat) == Get(w.totals, stat) + Total(d, stat) {
      AddRecordsAdds(w.totals, b.records, stat);
      RecordsCarryDeltas(b.records, d, stat);
    }
  }

  lemma FreezeAndSave(node: int, steps: seq<Step>, w: World, b: Batch) returns (more: seq<Step>, v: World)
    requires Reached(node, steps, w) && w.phase.Idle? && w.mem.pending.None?
    requires PrepareEffect(w.mem, Some(w.xray), w.node, w.mem.(pending := Some(b)),
                           Some(Prepared(b.snapshot, b.records, Some(b.id))))
    ensures Undisturbed(more) && Reached(node, steps + more, v)
    ensures v.phase == Calling(Some(Prepared(b.snapshot, b.records, Some(b.id))))
    ensures v.xray == w.xray && v.moved == w.moved && v.totals == w.totals && v.applied == w.applied
  {
    hide StatOf, Save, Load, PrepareEffect, After;
    var m := w.mem.(pending := Some(b));
    var p := Prepared(b.snapshot, b.records, Some(b.id));
    more := [Prepare(true, m, Some(p)), WriteTemp(true), Rename];
    var all := Extend(node, steps, w, more[0]);
    var w1 := w.(mem := m, phase := SavingBatch(p));
    all := Extend(node, all, w1, WriteTemp(true));
    var w2 := w1.(temp := Complete(Save(m)));
    all := Extend(node, all, w2, Rename);
    v := Do(w2, Rename);
    assert all == steps + more;
  }

  lemma SendAndRecord(node: int, steps: seq<Step>, w: World, b: Batch) returns (more: seq<Step>, v: World)
    requires Reached(node, steps, w) && w.phase == Calling(Some(Prepared(b.snapshot, b.records, Some(b.id))))
    requires b.id !in w.applied
    ensures Undisturbed(more) && Reached(node, steps + more, v)
    ensures v.moved == w.moved && v.totals == AddRecords(w.totals, b.records)
  {
    hide StatOf, AddRecords, Save, Load, After;
    more := [Send, PanelApply(b)];
    var all := Extend(node, steps, w, Send);
    var w1 := Do(w, Send);
    all := Extend(node, all, w1, PanelApply(b));
    v := Do(w1, PanelApply(b));
    assert all == steps + more;
  }

  /** An outstanding file write succeeds. */
  lemma WriteSucceeds(node: int, steps: seq<Step>, w: World) returns (more: seq<Step>, v: World)
    requires Reached(node, steps, w) && (w.phase.SavingBatch? || w.phase.SavingAck?)
    ensures Undisturbed(more) && Reached(node, steps + more, v) && v.mem == w.mem
    ensures v.phase == if w.phase.SavingBatch? then Calling(Some(w.phase.call)) else Idle
  {
    hide StatOf, Save, After;
    more := [WriteTemp(true), Rename];
    var all := Extend(node, steps, w, WriteTemp(true));
    var w1 := w.(temp := Complete(Save(w.mem)));
    all := Extend(node, all, w1, Rename);
    v := Do(w1, Rename);
    assert all == steps + more;
  }

  /** An open call delivers its request and is answered; what it carried is settled then. */
  lemma CallSucceeds(node: int, steps: seq<Step>, w: World) returns (more: seq<Step>, v: World)
    requires Reached(node, steps, w) && PhaseOk(w) && w.phase.Calling?
    requires w.mem.pending.Some? ==> w.mem.pending.value.snapshot.Some?
    ensures Undisturbed(more) && Reached(node, steps + more, v) && v.phase.Idle? && v.mem.pending.None?
  {
    hide StatOf, AddRecords, Save, Load, After, Sound;
    if w.mem.pending.None? {
      more, v := [ReplyOk], Do(w, ReplyOk);
      var all := Extend(node, steps, w, ReplyOk);
    } else {
      var b := w.mem.pending.value;
      var all := Extend(node, steps, w, Send);
      var w1 := Do(w, Send);
      all := Extend(node, all, w1, PanelApply(b));
      var rest;
      rest, v := ReplyIsSaved(node, all, Do(w1, PanelApply(b)), b);
      more := [Send, PanelApply(b)] + rest;
      assert all + rest == steps + more;
    }
  }

  /** Whatever an agent is doing, it gets to rest with nothing pending if it is left undisturbed. */
  lemma {:induction false} Settles(node: int, steps: seq<Step>) returns (more: seq<Step>)
    requires After(node, steps).Some? && NoDoubleCounting(node, steps)
    ensures Undisturbed(more) && After(node, steps + more).Some?
    ensures var v := After(node, steps + more).value; v.phase.Idle? && v.mem.pending.None?
    decreases After(node, steps).value.phase.SavingBatch?
  {
    hide StatOf, Sound, Do, Enabled, NoDoubleCounting, Undisturbed, Tracked, After;
    ReachableInv(node, steps);
    var w := After(node, steps).value;
    PendingIsGood(w, w.mem);
    var v;
    match w.phase
    case Idle =>
      if w.mem.pending.Some? {
        more, v := ResendAcknowledges(node, steps, w);
      } else {
        more := [];
        assert steps + more == steps && Undisturbed(more) by { NothingDisturbs(); }
      }
    case Calling(_) => more, v := CallSucceeds(node, steps, w);
    case SavingAck => more, v := WriteSucceeds(node, steps, w);
    case SavingBatch(_) =>
      more, v := WriteSucceeds(node, steps, w);
      UndisturbedIsSafe(node, steps, more);
      var rest := Settles(node, steps + more);
      UndisturbedJoin(more, rest);
      assert steps + more + rest == steps + (more + rest);
      more := more + rest;
  }

  lemma NothingDisturbs()
    ensures Undisturbed([])
  {
  }

  /** An idle agent with something to report can freeze it. */
  lemma FreshBatch(w: World) returns (b: Batch)
    requires w.mem.pending.None?
    requires exists stat :: Total(Deltas(w.mem.committed, w.xray), stat) != 0
    ensures Aggregates(b.records, Deltas(w.mem.committed, w.xray)) && b.snapshot == Some(w.xray)
    ensures multiset(b.id.counters) == multiset(Entries(w.xray))
    ensures PrepareEffect(w.mem, Some(w.xray), w.node, w.mem.(pending := Some(b)), Some(Prepared(b.snapshot, b.records, Some(b.id))))
  {
    hide Total, Deltas;
    var d := Deltas(w.mem.committed, w.xray);
    var records := AggregatesExist(d);
    var id := IdentityExists(w.node, Some(w.xray), records);
    assert records != [] by {
      var stat :| Total(d, stat) != 0;
      assert HasRecord(records, KeyOf(stat));
    }
    b := Batch(id, Some(w.xray), records);
  }
}
