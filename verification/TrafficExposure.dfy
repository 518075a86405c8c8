/** Exactly which steps can make the panel count bytes twice: a crash while the state file lags behind a batch that was
    sent, a restart without the file once anything was sent, and forgetting an identity that was recorded. */
module TrafficExposure {
  import opened Common
  import opened Counters
  import opened TrafficReporting
  import opened BatchIdentity
  import opened TrafficAgent
  import opened TrafficProtocol
  import opened TrafficExactness

  /** The panel counts up to `level`, and every identity it knows rests on counters no higher. */
  ghost predicate CountsUpTo(w: World, level: Counters) {
    Below(level, w.xray) && Counted(w, level) && AppliedBelow(w.applied, level)
  }

  /** What the agent holds after it stopped and started again. */
  function Restarted(w: World, s: Step): Memory {
    if s.Crash? then Load(w.file) else Load(Unreadable)
  }

  /** After a restart, once what was sent has been recorded, the panel counts up to where it reached before. */
  lemma SentIsRecorded(node: int, steps: seq<Step>, w: World, s: Step) returns (more: seq<Step>, v: World)
    requires Reached(node, steps, w) && ExactInv(w) && (s.Crash? || s.CrashUnread?)
    ensures Undisturbed(more) && Reached(node, steps + [s] + more, v)
    ensures v.mem == Restarted(w, s) && v.phase.Idle? && v.xray == w.xray && v.moved == w.moved && v.node == w.node
    ensures w.applied <= v.applied && CountsUpTo(v, Reach(w))
  {
    hide StatOf, Total, Covered, Owed, RecordSum, Identifies, NonNegative, AddRecords, Load, Behind, UpToDate, Entries, Below;
    hide Exact;
    var all := Extend(node, steps, w, s);
    var w1 := Do(w, s);
    PendingIsGood(w, w.mem);
    if w.mem.pending.Some? && w.mem.pending.value in w.sent && w.mem.pending.value.id !in w.applied {
      var b := w.mem.pending.value;
      assert Tracked(w, b);
      ApplyExactFor(w, b, w.mem);
      ExactCounts(Do(w, PanelApply(b)), b, w.mem);
      more := [PanelApply(b)];
      all := Extend(node, all, w1, PanelApply(b));
      v := Do(w1, PanelApply(b));
      SameCounts(Do(w, PanelApply(b)), v, b.snapshot.value);
      assert all == steps + [s] + more;
    } else {
      more, v := [], w1;
      ReachIsCounted(w);
      SameCounts(w, v, Reach(w));
      assert steps + [s] + more == steps + [s];
    }
  }

  lemma ExactCounts(w: World, b: Batch, m: Memory)
    requires b.snapshot.Some? && b.id in w.applied && m.pending == Some(b) && Exact(w, m)
    ensures CountsUpTo(w, b.snapshot.value)
  {
    hide StatOf, Total, Entries;
  }

  lemma ReachIsCounted(w: World)
    requires w.mem.pending.Some? ==> w.mem.pending.value.snapshot.Some?
    requires w.mem.pending.Some? && w.mem.pending.value in w.sent ==> w.mem.pending.value.id in w.applied
    requires Exact(w, w.mem)
    ensures CountsUpTo(w, Reach(w))
  {
    hide StatOf, Total, RecordSum, Entries;
  }

  /** A counter that gained a byte is above every level it was within. */
  lemma GainIsAbove(level: Counters, xray: Counters, name: string)
    requires Below(level, xray) && StatOf(name).Some?
    ensures !Below(xray[name := Get(xray, name) + 1], level)
  {
    hide StatOf;
    assert Get(level, name) <= Get(xray, name);
    assert Get(xray[name := Get(xray, name) + 1], name) > Get(level, name);
  }

  lemma SameCounts(w: World, v: World, level: Counters)
    requires w.xray == v.xray && w.totals == v.totals && w.applied == v.applied && CountsUpTo(w, level)
    ensures CountsUpTo(v, level)
  {
    hide StatOf, Total, Below, AppliedBelow;
    forall stat ensures Get(v.totals, stat) == Total(level, stat) {
      assert Get(w.totals, stat) == Total(level, stat);
    }
  }

  /** A restarted agent that still holds a recorded batch clears it first; then it measures from the file's base. */
  lemma RestartSettles(node: int, steps: seq<Step>, w: World, level: Counters) returns (more: seq<Step>, v: World)
    requires Reached(node, steps, w) && w.phase.Idle? && CountsUpTo(w, level)
    requires w.mem.pending.Some? ==> w.mem.pending.value.snapshot.Some? && w.mem.pending.value.id in w.applied
    ensures Undisturbed(more) && Reached(node, steps + more, v) && v.phase.Idle? && v.mem == Memory(Base(w.mem), None)
    ensures v.xray == w.xray && v.moved == w.moved && CountsUpTo(v, level)
  {
    hide CountsUpTo;
    if w.mem.pending.Some? {
      more, v := ResendAcknowledges(node, steps, w);
      assert w.applied + {w.mem.pending.value.id} == w.applied;
      SameCounts(w, v, level);
    } else {
      more, v := [], w;
      assert steps + more == steps;
    }
  }

  /** With the panel counting further than the agent's base, new traffic and one heartbeat push the total past what was
      transferred. */
  lemma MeasuredAgain(node: int, steps: seq<Step>, w: World, level: Counters, name: string, stat: Stat)
    returns (more: seq<Step>, v: World)
    requires Reached(node, steps, w) && w.phase.Idle? && w.mem.pending.None? && w.moved == w.xray
    requires NonNegative(w.mem.committed) && Below(w.mem.committed, w.xray) && CountsUpTo(w, level)
    requires Total(w.mem.committed, stat) < Total(level, stat) && StatOf(name).Some?
    ensures Undisturbed(more) && Reached(node, steps + more, v)
    ensures Get(v.totals, stat) > Total(v.moved, stat)
  {
    hide StatOf, Total, Deltas, Identifies, Entries, AddRecords;
    var base := w.mem.committed;
    var s := Transfer(name, 1);
    var all := Extend(node, steps, w, s);
    var w1 := Do(w, s);
    assert w1.moved == w1.xray && Below(w.xray, w1.xray) && Below(base, w1.xray);
    TotalMonotone(level, w1.xray, stat);
    TotalOfGrowth(base, w1.xray, stat);
    GainIsAbove(level, w.xray, name);
    var rest;
    rest, v := HeartbeatCounts(node, all, w1);
    more := [s] + rest;
    assert all + rest == steps + more;
    assert Get(w1.totals, stat) == Total(level, stat);
  }

  /** A restart that makes the agent measure from a level below what the panel reaches can always be continued, without
      any further disturbance, to a state in which more was counted than transferred. */
  lemma RestartOverCounts(node: int, steps: seq<Step>, s: Step, stat: Stat, name: string) returns (more: seq<Step>)
    requires After(node, steps).Some? && ExactInv(After(node, steps).value) && (s.Crash? || s.CrashUnread?)
    requires MeasuresBehind(After(node, steps).value, Restarted(After(node, steps).value, s), stat) && StatOf(name).Some?
    ensures OverCounts(node, steps, s, more, stat)
  {
    hide StatOf, Total, Covered, Owed, RecordSum, Identifies, AddRecords, Load, Entries, Exact, Inv, Sound, CountsUpTo;
    hide Do, Enabled, Undisturbed, GoodBatch, UpToDate, NonNegative, Below, After, Behind;
    var w := After(node, steps).value;
    MemoryIsGood(w);
    var m1, m2, m3, w1, w2, v;
    m1, w1 := SentIsRecorded(node, steps, w, s);
    m2, w2 := RestartSettles(node, steps + [s] + m1, w1, Reach(w));
    m3, v := MeasuredAgain(node, steps + [s] + m1 + m2, w2, Reach(w), name, stat);
    more := m1 + m2 + m3;
    assert steps + [s] + m1 + m2 + m3 == steps + [s] + more;
    UndisturbedJoin(m1, m2);
    UndisturbedJoin(m1 + m2, m3);
  }

  /** Memory `m` would make an agent measure on from less than what the panel reaches. */
  ghost predicate MeasuresBehind(w: World, m: Memory, stat: Stat) {
    && (w.mem.pending.Some? ==> w.mem.pending.value.snapshot.Some?)
    && (m.pending.Some? ==> m.pending.value.snapshot.Some? && m.pending.value.id in w.applied)
    && NonNegative(Base(m)) && Below(Base(m), w.xray) && Total(Base(m), stat) < Total(Reach(w), stat)
  }

  /** Step `s` is followed by nothing but undisturbed work, and too much is counted for `stat` in the end. */
  ghost predicate OverCounts(node: int, steps: seq<Step>, s: Step, more: seq<Step>, stat: Stat) {
    && Undisturbed(more) && After(node, steps + [s] + more).Some?
    && var w := After(node, steps + [s] + more).value; Get(w.totals, stat) > Total(w.moved, stat)
  }

  ghost predicate CanOverCount(node: int, steps: seq<Step>, s: Step) {
    exists more, stat :: OverCounts(node, steps, s, more, stat)
  }

  /** A batch was sent without being in the file, and no file write has succeeded since. */
  lemma ExposedCrashOverCounts(node: int, steps: seq<Step>, name: string) returns (more: seq<Step>, stat: Stat)
    requires After(node, steps).Some? && NoDoubleCounting(node, steps) && NoLosses(steps)
    requires After(node, steps).value.exposed && StatOf(name).Some?
    ensures OverCounts(node, steps, Crash, more, stat)
  {
    hide StatOf, Total, Exact, Inv, After, NoDoubleCounting, OverCounts;
    ReachableExact(node, steps);
    var w := After(node, steps).value;
    var f := Load(w.file);
    MemoryIsGood(w);
    stat :| Total(Base(f), stat) < Total(Reach(w), stat);
    more := RestartOverCounts(node, steps, Crash, stat, name);
  }

  /** What was sent is part of what the panel reaches. */
  lemma SentIsReached(w: World) returns (stat: Stat)
    requires ExactInv(w) && w.sent != {}
    ensures w.mem.pending.Some? ==> w.mem.pending.value.snapshot.Some?
    ensures Total(Reach(w), stat) > 0
  {
    hide StatOf, Total, Covered, Owed, RecordSum, Load, Behind, UpToDate, Entries, Sound;
    PendingIsGood(w, w.mem);
    var b :| b in w.sent;
    assert Tracked(w, b);
    stat :| RecordSum(b.records, stat) > 0;
    var level := Reach(w);
    assert Below(b.snapshot.value, level) by {
      if b.id in w.applied {
        assert multiset(b.id.counters) == multiset(Entries(b.snapshot.value));
        if w.mem.pending.Some? && w.mem.pending.value.id !in w.applied {
          assert Below(b.snapshot.value, w.mem.committed) && Below(w.mem.committed, w.mem.pending.value.snapshot.value);
        }
      }
    }
    TotalMonotone(b.snapshot.value, level, stat);
  }

  /** Started without its file after anything was sent, the agent reports again all that Xray counts. */
  lemma UnreadRestartOverCounts(node: int, steps: seq<Step>, name: string) returns (more: seq<Step>, stat: Stat)
    requires After(node, steps).Some? && NoDoubleCounting(node, steps) && NoLosses(steps)
    requires After(node, steps).value.sent != {} && StatOf(name).Some?
    ensures OverCounts(node, steps, CrashUnread, more, stat)
  {
    hide Exact, Inv, After, NoDoubleCounting, OverCounts;
    ReachableExact(node, steps);
    var w := After(node, steps).value;
    stat := SentIsReached(w);
    NothingTotals(stat);
    assert Below(map[], w.xray) by { XrayIsGood(w); }
    more := RestartOverCounts(node, steps, CrashUnread, stat, name);
  }

  lemma XrayIsGood(w: World)
    requires Inv(w)
    ensures NonNegative(w.xray)
  {
  }

  lemma MemoryIsGood(w: World)
    requires Inv(w)
    ensures w.mem.pending.Some? ==> w.mem.pending.value.snapshot.Some?
  {
    PendingIsGood(w, w.mem);
  }

  // ---- A forgotten identity ----

  /** Two runs that differ in nothing but the panel's totals stay that far apart. */
  lemma {:induction false} TotalsApart(node: int, a: seq<Step>, b: seq<Step>, more: seq<Step>, stat: Stat)
    requires After(node, a).Some? && After(node, b).Some? && After(node, a + more).Some?
    requires var w, v := After(node, a).value, After(node, b).value; v == w.(totals := v.totals)
    ensures After(node, b + more).Some?
    ensures var w, v := After(node, a).value, After(node, b).value;
            var w', v' := After(node, a + more).value, After(node, b + more).value;
            v' == w'.(totals := v'.totals)
            && Get(v'.totals, stat) - Get(w'.totals, stat) == Get(v.totals, stat) - Get(w.totals, stat)
  {
    hide Do, Enabled;
    if more == [] {
      assert a + more == a && b + more == b;
    } else {
      var n := |more| - 1;
      assert (a + more)[..|a + more| - 1] == a + more[..n] && (b + more)[..|b + more| - 1] == b + more[..n];
      TotalsApart(node, a, b, more[..n], stat);
      StepApart(After(node, a + more[..n]).value, After(node, b + more[..n]).value, more[n], stat);
    }
  }

  lemma StepApart(w: World, v: World, s: Step, stat: Stat)
    requires v == w.(totals := v.totals) && Enabled(w, s)
    ensures Enabled(v, s) && Do(v, s) == Do(w, s).(totals := Do(v, s).totals)
    ensures Get(Do(v, s).totals, stat) - Get(Do(w, s).totals, stat) == Get(v.totals, stat) - Get(w.totals, stat)
  {
    hide AddRecords, Save, Load, PrepareEffect, Acknowledge, Get;
    SameEnabled(w, v, s);
    if s.PanelApply? {
      AddRecordsAdds(w.totals, s.batch.records, stat);
      AddRecordsAdds(v.totals, s.batch.records, stat);
    } else {
      SameStep(w, v, s);
    }
  }

  /** Only the panel's recording looks at the totals. */
  lemma SameStep(w: World, v: World, s: Step)
    requires Enabled(w, s) && Enabled(v, s) && v == w.(totals := v.totals) && !s.PanelApply?
    ensures Do(v, s) == Do(w, s).(totals := v.totals) && Do(w, s).totals == w.totals
  {
    hide AddRecords, Save, Load, PrepareEffect, Acknowledge, Get, MessageOf, Enabled;
  }

  lemma SameEnabled(w: World, v: World, s: Step)
    requires v == w.(totals := v.totals) && Enabled(w, s)
    ensures Enabled(v, s)
  {
    hide AddRecords, Save, Load, PrepareEffect, Acknowledge, Get, MessageOf;
  }

  /** From any state an undisturbed agent gets to report all that was transferred. */
  lemma CatchesUp(node: int, steps: seq<Step>, name: string, stat: Stat) returns (more: seq<Step>)
    requires After(node, steps).Some? && NoDoubleCounting(node, steps) && NoLosses(steps) && StatOf(name).Some?
    ensures Undisturbed(more) && After(node, steps + more).Some?
    ensures var w := After(node, steps + more).value; Get(w.totals, stat) == Total(w.moved, stat)
  {
    hide StatOf, Total, Deltas, After, Undisturbed, NoDoubleCounting, NoLosses, Inv, Behind, UpToDate, Entries;
    var m1 := Settles(node, steps);
    UndisturbedIsSafe(node, steps, m1);
    ReachableExact(node, steps + m1);
    var w := After(node, steps + m1).value;
    var committed := w.mem.committed;
    CommittedIsGood(w);
    var s := Transfer(name, 1);
    var all := Extend(node, steps + m1, w, s);
    var w1 := Do(w, s);
    GrowthIsReported(committed, w.xray, name);
    GainIsAbove(w.xray, w.xray, name);
    BelowThrough(committed, w.xray, w1.xray, name);
    var rest, v := HeartbeatCounts(node, all, w1);
    more := m1 + [s] + rest;
    assert all + rest == steps + more;
    OneTransfer(s);
    UndisturbedJoin(m1, [s]);
    UndisturbedJoin(m1 + [s], rest);
    TotalOfGrowth(committed, w1.xray, stat);
    assert Get(w.totals, stat) == Total(committed, stat);
  }

  /** Forgetting an identity the panel has recorded is harmful in every state: a copy of the request may arrive again,
      and its bytes stay counted twice. */
  lemma ForgettingOverCounts(node: int, steps: seq<Step>, id: BatchID, name: string) returns (more: seq<Step>, stat: Stat)
    requires After(node, steps).Some? && NoDoubleCounting(node, steps) && NoLosses(steps)
    requires id in After(node, steps).value.applied && StatOf(name).Some?
    ensures OverCounts(node, steps, PanelForgets(id), more, stat)
  {
    hide StatOf, Total, AddRecords, After, Undisturbed, NoDoubleCounting, NoLosses, Inv, Do, Enabled;
    ReachableInv(node, steps);
    var w := After(node, steps).value;
    var b;
    b, stat := RecordedRequest(w, id);
    var apply := PanelApply(b);
    var again := RecordedAgain(node, steps, w, b);
    var v := After(node, again).value;
    AddRecordsAdds(w.totals, b.records, stat);
    var rest := CatchesUp(node, steps, name, stat);
    TotalsApart(node, steps, again, rest, stat);
    more := [apply] + rest;
    assert again + rest == steps + [PanelForgets(id)] + more;
    assert Undisturbed([apply]) by { OneDelivery(b); }
    UndisturbedJoin([apply], rest);
  }

  lemma OneDelivery(b: Batch)
    ensures Undisturbed([PanelApply(b)])
  {
  }

  lemma RecordedRequest(w: World, id: BatchID) returns (b: Batch, stat: Stat)
    requires Inv(w) && id in w.applied
    ensures b in w.sent && b.id == id && RecordSum(b.records, stat) > 0
  {
    hide StatOf, Total, Covered, Owed, RecordSum, Identifies, Load, Sound, NonNegative, Below;
    b :| b in w.sent && b.id == id;
    assert Tracked(w, b);
    stat :| RecordSum(b.records, stat) > 0;
  }

  lemma RecordedAgain(node: int, steps: seq<Step>, w: World, b: Batch) returns (more: seq<Step>)
    requires Reached(node, steps, w) && b in w.sent && b.id in w.applied
    ensures more == steps + [PanelForgets(b.id)] + [PanelApply(b)]
    ensures Reached(node, more, w.(totals := AddRecords(w.totals, b.records)))
  {
    hide AddRecords, Load, Save, After;
    more := Extend(node, steps, w, PanelForgets(b.id));
    more := Extend(node, more, w.(applied := w.applied - {b.id}), PanelApply(b));
    assert w.applied - {b.id} + {b.id} == w.applied;
  }

  lemma OneTransfer(s: Step)
    requires s.Transfer?
    ensures Undisturbed([s])
  {
  }

  lemma BelowThrough(base: Counters, xray: Counters, after: Counters, name: string)
    requires Below(base, xray) && after == xray[name := Get(xray, name) + 1] && StatOf(name).Some?
    ensures Below(base, after) && !Below(after, base)
  {
    hide StatOf;
    GainIsAbove(base, xray, name);
  }

  lemma CommittedIsGood(w: World)
    requires Inv(w)
    ensures NonNegative(w.mem.committed)
  {
  }

  lemma GrowthIsReported(base: Counters, xray: Counters, name: string)
    requires NonNegative(base) && Below(base, xray) && StatOf(name).Some?
    ensures Total(Deltas(base, xray[name := Get(xray, name) + 1]), StatOf(name).value) != 0
  {
    hide StatOf;
    var stat, after := StatOf(name).value, xray[name := Get(xray, name) + 1];
    assert Below(base, after);
    TotalOfGrowth(base, after, stat);
    TotalSet(xray, name, Get(xray, name) + 1, stat);
    TotalMonotone(base, xray, stat);
  }

  // ---- The exact condition ----

  /** After a run that lost nothing, exactly the steps named as double counting can lead to an over-count: whatever else
      happens, nothing that follows undisturbed counts a byte twice. */
  lemma OverCountsExactlyWhen(node: int, steps: seq<Step>, s: Step, name: string)
    requires After(node, steps).Some? && NoDoubleCounting(node, steps) && NoLosses(steps) && StatOf(name).Some?
    requires Enabled(After(node, steps).value, s)
    ensures CanOverCount(node, steps, s) <==> DoubleCounting(After(node, steps).value, s)
  {
    hide StatOf, Total, Do, Enabled, Undisturbed, NoDoubleCounting, NoLosses, Owed, Counting, OverCounts;
    var w := After(node, steps).value;
    if DoubleCounting(w, s) {
      var more, stat;
      match s
      case Crash => more, stat := ExposedCrashOverCounts(node, steps, name);
      case CrashUnread => more, stat := UnreadRestartOverCounts(node, steps, name);
      case PanelForgets(id) => more, stat := ForgettingOverCounts(node, steps, id, name);
      assert OverCounts(node, steps, s, more, stat);
    } else {
      forall more, stat ensures !OverCounts(node, steps, s, more, stat) {
        NothingCountedTwice(node, steps, s, more, stat);
      }
    }
  }

  lemma NothingCountedTwice(node: int, steps: seq<Step>, s: Step, more: seq<Step>, stat: Stat)
    requires After(node, steps).Some? && NoDoubleCounting(node, steps) && !DoubleCounting(After(node, steps).value, s)
    ensures !OverCounts(node, steps, s, more, stat)
  {
    hide StatOf, Total, Do, Enabled, NoLosses, Owed, DoubleCounting;
    if OverCounts(node, steps, s, more, stat) {
      var front := steps + [s];
      assert front[..|front| - 1] == steps;
      UndisturbedIsSafe(node, front, more);
      NoOverCount(node, front + more, stat);
      assert false;
    }
  }

  /** A restart without the file is harmful exactly when something the panel reaches is positive, which is to say when
      anything was sent. */
  lemma UnreadRestartHurtsExactlyWhen(node: int, steps: seq<Step>, name: string)
    requires After(node, steps).Some? && NoDoubleCounting(node, steps) && NoLosses(steps) && StatOf(name).Some?
    ensures var w := After(node, steps).value;
            && (w.mem.pending.Some? ==> w.mem.pending.value.snapshot.Some?)
            && (CanOverCount(node, steps, CrashUnread) <==> w.sent != {})
            && (w.sent != {} <==> exists stat :: Total(Reach(w), stat) > 0)
  {
    hide StatOf, Total, Inv, Do, After, Undisturbed, NoDoubleCounting, NoLosses, Owed, OverCounts;
    ReachableExact(node, steps);
    var w := After(node, steps).value;
    MemoryIsGood(w);
    if w.sent != {} {
      var more, stat := UnreadRestartOverCounts(node, steps, name);
      assert OverCounts(node, steps, CrashUnread, more, stat);
      var reached := SentIsReached(w);
    } else {
      forall more, stat ensures !OverCounts(node, steps, CrashUnread, more, stat) {
        NothingCountedTwice(node, steps, CrashUnread, more, stat);
      }
      forall stat ensures Total(Reach(w), stat) == 0 {
        NothingReached(w, stat);
      }
    }
  }

  lemma NothingReached(w: World, stat: Stat)
    requires ExactInv(w) && w.sent == {} && (w.mem.pending.Some? ==> w.mem.pending.value.snapshot.Some?)
    ensures Total(Reach(w), stat) == 0
  {
    hide StatOf, Total, Covered, Owed, RecordSum, Load, Behind, UpToDate, Entries, Sound, Below, AppliedBelow;
    assert w.applied == {};
    assert Get(w.totals, stat) == Total(Reach(w), stat);
  }
}
