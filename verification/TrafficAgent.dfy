/** The agent's frozen batch and its state file (internal/agent/agent.go). */
module TrafficAgent {
  import opened Common
  import opened Counters
  import opened TrafficReporting
  import opened BatchIdentity

  datatype Batch = Batch(id: BatchID, snapshot: Option<Counters>, records: seq<TrafficRecord>)

  /** The traffic state an agent process holds: committed counters and the batch awaiting acknowledgement. */
  datatype Memory = Memory(committed: Counters, pending: Option<Batch>)

  datatype SavedBatch = SavedBatch(id: BatchID, counters: Counters, records: seq<TrafficRecord>)

  /** traffic-state.json: missing, not parseable, or holding a state. */
  datatype StateFile = Absent | Unreadable | Saved(committed: Counters, pending: Option<SavedBatch>)

  /** What persistTrafficState leaves in the file; an empty state removes it. */
  function Save(m: Memory): StateFile {
    if m.committed == map[] && m.pending.None? then Absent
    else Saved(m.committed, match m.pending
                            case None => None
                            case Some(b) => Some(SavedBatch(b.id, if b.snapshot.Some? then b.snapshot.value else map[], b.records)))
  }

  /** What a starting agent takes from the file; a batch without counters gets a nil snapshot. */
  function Load(f: StateFile): Memory {
    match f
    case Absent => Memory(map[], None)
    case Unreadable => Memory(map[], None)
    case Saved(committed, pending) =>
      Memory(committed, match pending
                        case None => None
                        case Some(s) => Some(Batch(s.id, if s.counters == map[] then None else Some(s.counters), s.records)))
  }

  /** A restart brings back exactly what was saved, unless the pending batch rests on an empty snapshot. */
  lemma SaveLoadRoundTrip(m: Memory)
    ensures Load(Save(m)) == m <==> !(m.pending.Some? && m.pending.value.snapshot == Some(map[]))
  {
    if m.pending.Some? {
      assert Load(Save(m)).pending.Some?;
    }
  }

  /** The part of a heartbeat that concerns traffic; an absent batch ID is the empty one. */
  datatype Prepared = Prepared(snapshot: Option<Counters>, records: seq<TrafficRecord>, batchID: Option<BatchID>)

  /** prepareHeartbeatTraffic: resend the frozen batch, or freeze a new one if there is anything to report. */
  ghost predicate PrepareEffect(before: Memory, current: Option<Counters>, nodeID: int, after: Memory,
                                p: Option<Prepared>) {
    if before.pending.Some? then
      var b := before.pending.value;
      after == before && p == Some(Prepared(b.snapshot, b.records, Some(b.id)))
    else if current.None? then
      after == before && p.None?
    else
      && p.Some? && p.value.snapshot == current
      && Aggregates(p.value.records, Deltas(before.committed, current.value))
      && if p.value.records == [] then
           p.value.batchID.None? && after == before
         else
           && p.value.batchID.Some?
           && Identifies(p.value.batchID.value, nodeID, current, p.value.records)
           && after == before.(pending := Some(Batch(p.value.batchID.value, current, p.value.records)))
  }

  /** acknowledgeHeartbeatTraffic: commit the snapshot, and clear the batch only if it is the one acknowledged. */
  function Acknowledge(m: Memory, batchID: Option<BatchID>, snapshot: Option<Counters>): Memory {
    if snapshot.None? then m
    else
      var c := m.(committed := snapshot.value);
      if batchID.Some? && m.pending.Some? && m.pending.value.id == batchID.value then c.(pending := None) else c
  }

  class DiskFile {
    var content: StateFile
    constructor ()
      ensures content == Absent
    { content := Absent; }
  }

  /** Outcome of the HTTP call as the agent sees it. */
  datatype Reply = Success | Rejected | Failed

  class Agent {
    const nodeID: int
    const reporter: TrafficReporter
    const disk: DiskFile
    var pendingTraffic: Option<Batch>

    ghost function Mem(): Memory
      reads this, reporter
    {
      Memory(reporter.lastCommitted, pendingTraffic)
    }

    /** A new process restores its state from the file it finds. */
    constructor (nodeID: int, disk: DiskFile)
      ensures this.nodeID == nodeID && this.disk == disk && fresh(reporter)
      ensures Mem() == Load(disk.content)
    {
      this.nodeID := nodeID;
      this.disk := disk;
      reporter := new TrafficReporter();
      pendingTraffic := None;
      new;
      RestoreTrafficState();
    }

    method RestoreTrafficState()
      modifies this, reporter
      ensures disk.content.Saved? ==>
                var m := Load(disk.content);
                Mem() == if m.pending.Some? then m else m.(pending := old(pendingTraffic))
      ensures !disk.content.Saved? ==> Mem() == old(Mem())
    {
      match disk.content
      case Absent =>
      case Unreadable =>
      case Saved(committed, pending) =>
        reporter.RestoreCommittedCounters(committed);
        if pending.Some? {
          pendingTraffic := Some(Batch(pending.value.id, Some(pending.value.counters), pending.value.records));
          if pending.value.counters == map[] {
            pendingTraffic := Some(pendingTraffic.value.(snapshot := None));
          }
        }
    }

    /** `ok` says whether the file operations succeed; a failure is logged and leaves the old file. */
    method PersistTrafficState(ok: bool)
      modifies disk
      ensures disk.content == if ok then Save(Mem()) else old(disk.content)
    {
      if ok {
        disk.content := Save(Memory(reporter.lastCommitted, pendingTraffic));
      }
    }

    method PrepareHeartbeatTraffic(current: Option<Counters>, diskOk: bool) returns (p: Option<Prepared>)
      modifies this, disk
      ensures PrepareEffect(old(Mem()), current, nodeID, Mem(), p)
      ensures disk.content == if Mem() != old(Mem()) && diskOk then Save(Mem()) else old(disk.content)
    {
      if pendingTraffic.Some? {
        return Some(Prepared(pendingTraffic.value.snapshot, pendingTraffic.value.records, Some(pendingTraffic.value.id)));
      }
      var delta := reporter.PrepareDelta(current);
      if delta.None? {
        return None;
      }
      var (snapshot, records) := delta.value;
      if records == [] {
        return Some(Prepared(Some(snapshot), [], None));
      }
      var id := BuildTrafficBatchID(nodeID, Some(snapshot), records);
      pendingTraffic := Some(Batch(id, Some(snapshot), records));
      PersistTrafficState(diskOk);
      return Some(Prepared(Some(snapshot), records, Some(id)));
    }

    method AcknowledgeHeartbeatTraffic(batchID: Option<BatchID>, snapshot: Option<Counters>, diskOk: bool)
      modifies this, reporter, disk
      ensures Mem() == Acknowledge(old(Mem()), batchID, snapshot)
      ensures disk.content ==
              if snapshot.Some? && batchID.Some? && diskOk then Save(Mem()) else old(disk.content)
    {
      if snapshot.None? {
        return;
      }
      reporter.Commit(snapshot);
      if batchID.None? {
        return;
      }
      if pendingTraffic.Some? && pendingTraffic.value.id == batchID.value {
        pendingTraffic := None;
      }
      PersistTrafficState(diskOk);
    }

    /** The traffic part of one heartbeat: nothing is acknowledged unless the panel answered with success. */
    method SendHeartbeat(current: Option<Counters>, diskOkBefore: bool, reply: Reply, diskOkAfter: bool)
      returns (request: Option<Prepared>, ghost prepared: Memory, ghost preparedFile: StateFile)
      modifies this, reporter, disk
      ensures PrepareEffect(old(Mem()), current, nodeID, prepared, request)
      ensures preparedFile == if prepared != old(Mem()) && diskOkBefore then Save(prepared) else old(disk.content)
      ensures disk.content == if reply.Success? && request.Some? && request.value.snapshot.Some? &&
                                 request.value.batchID.Some? && diskOkAfter
                              then Save(Mem()) else preparedFile
      ensures Mem() == if reply.Success? && request.Some?
                       then Acknowledge(prepared, request.value.batchID, request.value.snapshot) else prepared
    {
      request := PrepareHeartbeatTraffic(current, diskOkBefore);
      prepared, preparedFile := Mem(), disk.content;
      if reply.Success? && request.Some? && request.value.snapshot.Some? {
        AcknowledgeHeartbeatTraffic(request.value.batchID, request.value.snapshot, diskOkAfter);
      }
    }
  }
}
