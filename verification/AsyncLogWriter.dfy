/** The batching log writer (internal/log/async_writer.go). */
module AsyncLogWriter {
  import opened Common

  datatype Config = Config(bufferSize: nat, batchSize: int)

  /** NewAsyncWriter falls back on the buffer size for a batch size that is not positive, and caps it there. */
  function Configured(bufferSize: nat, batchSize: int): (c: Config)
    ensures c.bufferSize == bufferSize
    ensures bufferSize > 0 ==> 1 <= c.batchSize <= bufferSize
    ensures batchSize <= 0 || (bufferSize > 0 && batchSize > bufferSize) ==> c.batchSize == bufferSize
    ensures 1 <= batchSize && (bufferSize == 0 || batchSize <= bufferSize) ==> c.batchSize == batchSize
  {
    var size := if batchSize <= 0 then bufferSize else batchSize;
    Config(bufferSize, if bufferSize > 0 && size > bufferSize then bufferSize else size)
  }

  /** The log table and what still waits in memory. */
  datatype Log<T> = Log(rows: seq<T>, buffer: seq<T>)

  function Trimmed<T>(c: Config, buffer: seq<T>): seq<T> {
    if c.bufferSize > 0 && |buffer| > c.bufferSize then buffer[|buffer| - c.bufferSize..] else buffer
  }

  /** How a batch write ends. The database may have stored a batch whose write it reports as failed: the connection or the
      time limit ends after the commit. */
  datatype Answer = Saved | Refused | SavedUnreported

  predicate Stores(answer: Answer) {
    answer.Saved? || answer.SavedUnreported?
  }

  function Flushed<T>(log: Log<T>, answer: Answer): Log<T> {
    Log(if Stores(answer) then log.rows + log.buffer else log.rows, if answer.Saved? then [] else log.buffer)
  }

  function Written<T>(c: Config, log: Log<T>, entry: T, answer: Answer): Log<T> {
    var grown := Log(log.rows, Trimmed(c, log.buffer + [entry]));
    if |grown.buffer| >= c.batchSize then Flushed(grown, answer) else grown
  }

  class Database<T> {
    var rows: seq<T>

    constructor ()
      ensures rows == []
    {
      rows := [];
    }

    /** All of the batch is stored, or none of it. */
    method CreateBatch(logs: seq<T>, answer: Answer) returns (ok: bool)
      modifies this
      ensures ok == answer.Saved? && rows == if Stores(answer) then old(rows) + logs else old(rows)
    {
      if Stores(answer) {
        rows := rows + logs;
      }
      ok := answer.Saved?;
    }
  }

  class AsyncWriter<T> {
    const repo: Database<T>
    const config: Config
    var buffer: seq<T>

    function State(): Log<T>
      reads this, repo
    {
      Log(repo.rows, buffer)
    }

    constructor (repo: Database<T>, bufferSize: nat, batchSize: int)
      ensures this.repo == repo && config == Configured(bufferSize, batchSize) && buffer == []
    {
      this.repo := repo;
      var size := batchSize;
      if size <= 0 {
        size := bufferSize;
      }
      if bufferSize > 0 && size > bufferSize {
        size := bufferSize;
      }
      config := Config(bufferSize, size);
      buffer := [];
    }

    method Write(entry: T, answer: Answer) returns (ok: bool)
      modifies this, repo
      ensures State() == Written(config, old(State()), entry, answer)
      ensures ok == (answer.Saved? || |Trimmed(config, old(buffer) + [entry])| < config.batchSize)
    {
      buffer := buffer + [entry];
      if config.bufferSize > 0 && |buffer| > config.bufferSize {
        var dropped := |buffer| - config.bufferSize;
        buffer := buffer[dropped..];
      }
      ok := true;
      if |buffer| >= config.batchSize {
        ok := Flush(answer);
        assert |old(buffer) + [entry]| > 0;
      }
    }

    method Flush(answer: Answer) returns (ok: bool)
      modifies this, repo
      ensures State() == Flushed(old(State()), answer)
      ensures ok == (answer.Saved? || old(buffer) == [])
    {
      if |buffer| == 0 {
        assert repo.rows + [] == repo.rows;
        return true;
      }
      ok := repo.CreateBatch(buffer, answer);
      if !ok { return; }
      buffer := [];
    }
  }

  // ---- Whole runs ----

  datatype Action<T> = Write(entry: T, answer: Answer) | Flush(answer: Answer)

  function Act<T>(c: Config, log: Log<T>, a: Action<T>): Log<T> {
    match a
    case Write(entry, answer) => Written(c, log, entry, answer)
    case Flush(answer) => Flushed(log, answer)
  }

  function Replay<T>(c: Config, actions: seq<Action<T>>): Log<T> {
    if actions == [] then Log([], [])
    else Act(c, Replay(c, actions[..|actions| - 1]), actions[|actions| - 1])
  }

  function Entries<T>(actions: seq<Action<T>>): seq<T> {
    if actions == [] then []
    else
      var last := actions[|actions| - 1];
      Entries(actions[..|actions| - 1]) + if last.Write? then [last.entry] else []
  }

  /** The batch that the action after `init` tries to write, if it tries. */
  function Batch<T>(c: Config, init: seq<Action<T>>, a: Action<T>): Option<seq<T>> {
    var waiting := Replay(c, init).buffer;
    match a
    case Write(entry, _) =>
      var grown := Trimmed(c, waiting + [entry]);
      if |grown| >= c.batchSize then Some(grown) else None
    case Flush(_) => if waiting == [] then None else Some(waiting)
  }

  /** The rows of the batches whose writes were reported as done. */
  function Kept<T>(c: Config, actions: seq<Action<T>>): seq<T> {
    if actions == [] then []
    else
      var init, last := actions[..|actions| - 1], actions[|actions| - 1];
      var batch := Batch(c, init, last);
      Kept(c, init) + if batch.Some? && last.answer.Saved? then batch.value else []
  }

  /** The batches stored although their writes were reported as failed. */
  function Copies<T>(c: Config, actions: seq<Action<T>>): seq<seq<T>> {
    if actions == [] then []
    else
      var init, last := actions[..|actions| - 1], actions[|actions| - 1];
      var batch := Batch(c, init, last);
      Copies(c, init) + if batch.Some? && last.answer.SavedUnreported? then [batch.value] else []
  }

  function Gathered<T>(batches: seq<seq<T>>): multiset<T> {
    if batches == [] then multiset{}
    else Gathered(batches[..|batches| - 1]) + multiset(batches[|batches| - 1])
  }

  /** The positions, in the order of writing, of the entries thrown away. */
  ghost function Dropped<T>(c: Config, actions: seq<Action<T>>): set<nat> {
    if actions == [] then {}
    else
      var init, last := actions[..|actions| - 1], actions[|actions| - 1];
      Dropped(c, init) + if last.Write? then DroppedNow(c, init) else {}
  }

  /** What the write after `init` throws away: the oldest waiting entries beyond the buffer size. */
  ghost function DroppedNow<T>(c: Config, init: seq<Action<T>>): set<nat> {
    var total, waiting := |Entries(init)| + 1, |Replay(c, init).buffer| + 1;
    if c.bufferSize > 0 && waiting > c.bufferSize then Positions(total - waiting, total - c.bufferSize) else {}
  }

  ghost function Positions(low: int, high: int): set<nat> {
    if high <= 0 then {} else set i: nat | i in Range(high) && low <= i
  }

  ghost function Without<T>(s: seq<T>, positions: set<nat>): seq<T> {
    if s == [] then []
    else
      var last := |s| - 1;
      Without(s[..last], positions) + if last in positions then [] else [s[last]]
  }

  lemma {:induction false} WithoutMore<T>(s: seq<T>, positions: set<nat>, cut: nat)
    requires cut <= |s| && forall i | i in positions :: i < cut
    ensures Without(s, positions) == Without(s[..cut], positions) + s[cut..]
  {
    if |s| > cut {
      var last := |s| - 1;
      WithoutMore(s[..last], positions, cut);
      assert s[..last][..cut] == s[..cut] && s[..last][cut..] + [s[last]] == s[cut..];
      assert Without(s, positions) == Without(s[..last], positions) + [s[last]];
    } else {
      assert s[..cut] == s && s[cut..] == [];
      assert Without(s, positions) + [] == Without(s, positions);
    }
  }

  lemma {:induction false} WithoutSame<T>(s: seq<T>, a: set<nat>, b: set<nat>)
    requires forall i: nat | i < |s| :: i in a <==> i in b
    ensures Without(s, a) == Without(s, b)
  {
    if s != [] {
      WithoutSame(s[..|s| - 1], a, b);
    }
  }

  /** At every point: the buffer is the end of everything written; the rows of reported writes and the buffer together are
      everything written, in order and each entry once, except exactly the dropped positions; a positive buffer size is
      respected. The table holds those rows and, once more for each write that was stored but reported as failed, the
      batch of that write, an unbroken part of what was written. */
  lemma {:induction false} Conservation<T>(c: Config, actions: seq<Action<T>>)
    ensures Conserved(c, Kept(c, actions), Replay(c, actions).buffer, Entries(actions), Dropped(c, actions))
    ensures multiset(Replay(c, actions).rows) == multiset(Kept(c, actions)) + Gathered(Copies(c, actions))
    ensures Copies(c, actions) == [] ==> Replay(c, actions).rows == Kept(c, actions)
    ensures forall batch | batch in Copies(c, actions) :: PartOf(batch, Entries(actions))
  {
    hide Without, Trimmed, DroppedNow, Conserved, Gathered, PartOf;
    if actions == [] {
      NothingConserved<T>(c);
    } else {
      var init, last := actions[..|actions| - 1], actions[|actions| - 1];
      Conservation(c, init);
      KeptConserves(c, init, last);
      RowsConserved(c, init, last);
      CopiesArePart(c, init, last);
      assert init + [last] == actions;
    }
  }

  lemma NothingConserved<T>(c: Config)
    ensures Conserved<T>(c, [], [], [], {}) && Gathered<T>([]) == multiset{}
  {
    EmptyWithout<T>({});
  }

  lemma Unfold<T>(c: Config, init: seq<Action<T>>, last: Action<T>)
    ensures var actions, batch := init + [last], Batch(c, init, last);
            && Replay(c, actions) == Act(c, Replay(c, init), last)
            && Entries(actions) == Entries(init) + (if last.Write? then [last.entry] else [])
            && Kept(c, actions) == Kept(c, init) + (if batch.Some? && last.answer.Saved? then batch.value else [])
            && Copies(c, actions) == Copies(c, init) + (if batch.Some? && last.answer.SavedUnreported? then [batch.value] else [])
            && Dropped(c, actions) == Dropped(c, init) + if last.Write? then DroppedNow(c, init) else {}
  {
    assert (init + [last])[..|init|] == init;
  }

  lemma KeptConserves<T>(c: Config, init: seq<Action<T>>, last: Action<T>)
    requires Conserved(c, Kept(c, init), Replay(c, init).buffer, Entries(init), Dropped(c, init))
    ensures var actions := init + [last];
            Conserved(c, Kept(c, actions), Replay(c, actions).buffer, Entries(actions), Dropped(c, actions))
  {
    Unfold(c, init, last);
    hide Without, Trimmed, DroppedNow, Conserved, Replay, Entries, Kept, Dropped;
    var log, kept, entries, dropped := Replay(c, init), Kept(c, init), Entries(init), Dropped(c, init);
    match last
    case Write(entry, answer) =>
      WriteConserves(c, init, entry);
      FlushConserves(c, kept, Trimmed(c, log.buffer + [entry]), entries + [entry], dropped + DroppedNow(c, init));
      assert kept + [] == kept;
    case Flush(answer) =>
      FlushConserves(c, kept, log.buffer, entries, dropped);
      assert kept + [] == kept && kept + log.buffer == kept + log.buffer + [];
      assert entries + [] == entries && dropped + {} == dropped;
  }

  lemma RowsConserved<T>(c: Config, init: seq<Action<T>>, last: Action<T>)
    requires multiset(Replay(c, init).rows) == multiset(Kept(c, init)) + Gathered(Copies(c, init))
    requires Copies(c, init) == [] ==> Replay(c, init).rows == Kept(c, init)
    ensures var actions := init + [last];
            && multiset(Replay(c, actions).rows) == multiset(Kept(c, actions)) + Gathered(Copies(c, actions))
            && (Copies(c, actions) == [] ==> Replay(c, actions).rows == Kept(c, actions))
  {
    Unfold(c, init, last);
    Attempt(c, init, last);
    hide *;
    RowsStep(Replay(c, init).rows, Kept(c, init), Copies(c, init), Batch(c, init, last), last.answer);
  }

  /** What an action does with the batch it tries to write. */
  lemma Attempt<T>(c: Config, init: seq<Action<T>>, last: Action<T>)
    ensures var before, after, batch := Replay(c, init), Act(c, Replay(c, init), last), Batch(c, init, last);
            && after.rows == before.rows + Stored(batch, Stores(last.answer))
            && (batch.Some? && !last.answer.Saved? ==> after.buffer == batch.value)
  {
    hide Trimmed, Replay;
    var rows := Replay(c, init).rows;
    assert rows + [] == rows;
  }

  function Stored<T>(batch: Option<seq<T>>, stored: bool): seq<T> {
    if batch.Some? && stored then batch.value else []
  }

  lemma RowsStep<T>(rows: seq<T>, kept: seq<T>, copies: seq<seq<T>>, batch: Option<seq<T>>, answer: Answer)
    requires multiset(rows) == multiset(kept) + Gathered(copies) && (copies == [] ==> rows == kept)
    ensures var more := rows + Stored(batch, Stores(answer));
            var keptMore := kept + if batch.Some? && answer.Saved? then batch.value else [];
            var copiesMore := copies + if batch.Some? && answer.SavedUnreported? then [batch.value] else [];
            && multiset(more) == multiset(keptMore) + Gathered(copiesMore)
            && (copiesMore == [] ==> more == keptMore)
  {
    assert rows + [] == rows && kept + [] == kept && copies + [] == copies;
    hide Gathered;
    if batch.Some? {
      GatheredNext(copies, batch.value);
      BagOf(rows, batch.value);
      BagOf(kept, batch.value);
    }
  }

  lemma BagOf<T>(a: seq<T>, b: seq<T>)
    ensures multiset(a + b) == multiset(a) + multiset(b)
  {
  }

  lemma GatheredNext<T>(copies: seq<seq<T>>, batch: seq<T>)
    ensures Gathered(copies + [batch]) == Gathered(copies) + multiset(batch)
  {
    assert (copies + [batch])[..|copies|] == copies;
  }

  ghost predicate PartOf<T>(batch: seq<T>, entries: seq<T>) {
    exists low: nat, high: nat | low <= high <= |entries| :: batch == entries[low..high]
  }

  lemma CopiesArePart<T>(c: Config, init: seq<Action<T>>, last: Action<T>)
    requires Conserved(c, Kept(c, init), Replay(c, init).buffer, Entries(init), Dropped(c, init))
    requires forall batch | batch in Copies(c, init) :: PartOf(batch, Entries(init))
    ensures forall batch | batch in Copies(c, init + [last]) :: PartOf(batch, Entries(init + [last]))
  {
    Unfold(c, init, last);
    KeptConserves(c, init, last);
    Attempt(c, init, last);
    var actions := init + [last];
    BufferIsPart(c, Kept(c, actions), Replay(c, actions).buffer, Entries(actions), Dropped(c, actions));
    hide *;
    PartsStep(Copies(c, init), Batch(c, init, last), last.answer, Entries(init), Entries(actions));
  }

  lemma BufferIsPart<T>(c: Config, rows: seq<T>, buffer: seq<T>, entries: seq<T>, dropped: set<nat>)
    requires Conserved(c, rows, buffer, entries, dropped)
    ensures PartOf(buffer, entries)
  {
    assert buffer == entries[|entries| - |buffer|..|entries|];
  }

  lemma PartsStep<T>(copies: seq<seq<T>>, batch: Option<seq<T>>, answer: Answer, entries: seq<T>, all: seq<T>)
    requires entries <= all && forall b | b in copies :: PartOf(b, entries)
    requires batch.Some? && !answer.Saved? ==> PartOf(batch.value, all)
    ensures var more := copies + if batch.Some? && answer.SavedUnreported? then [batch.value] else [];
            forall b | b in more :: PartOf(b, all)
  {
    hide PartOf;
    forall b | b in copies ensures PartOf(b, all) {
      PartOfMore(b, entries, all);
    }
  }

  lemma PartOfMore<T>(batch: seq<T>, entries: seq<T>, all: seq<T>)
    requires PartOf(batch, entries) && entries <= all
    ensures PartOf(batch, all)
  {
    var low: nat, high: nat :| low <= high <= |entries| && batch == entries[low..high];
    assert batch == all[low..high];
  }

  /** How often an entry that was written once can be in the table: at most once more than writes of its batches were
      stored and reported as failed; and at least once, if it neither waits nor was dropped. */
  lemma CopiesBound<T(!new)>(c: Config, actions: seq<Action<T>>, i: nat)
    requires Distinct(Entries(actions)) && i < |Entries(actions)|
    ensures var log, entry := Replay(c, actions), Entries(actions)[i];
            && multiset(log.rows)[entry] <= 1 + |Copies(c, actions)|
            && (entry !in log.buffer && i !in Dropped(c, actions) ==> multiset(log.rows)[entry] >= 1)
  {
    var entries, entry := Entries(actions), Entries(actions)[i];
    Conservation(c, actions);
    var kept, buffer := Kept(c, actions), Replay(c, actions).buffer;
    WithoutOnce(entries, Dropped(c, actions), i);
    assert multiset(kept + buffer) == multiset(kept) + multiset(buffer);
    GatheredOnce(Copies(c, actions), entries, entry);
  }

  lemma {:induction false} WithoutOnce<T(!new)>(s: seq<T>, positions: set<nat>, i: nat)
    requires Distinct(s) && i < |s|
    ensures multiset(Without(s, positions))[s[i]] == if i in positions then 0 else 1
  {
    var last := |s| - 1;
    if i < last {
      WithoutOnce(s[..last], positions, i);
      assert s[..last][i] == s[i] && s[i] != s[last];
    } else {
      WithoutOthers(s[..last], positions, s[last]);
    }
  }

  lemma {:induction false} WithoutOthers<T>(s: seq<T>, positions: set<nat>, x: T)
    requires x !in s
    ensures x !in Without(s, positions)
  {
    if s != [] { WithoutOthers(s[..|s| - 1], positions, x); }
  }

  lemma {:induction false} GatheredOnce<T(!new)>(batches: seq<seq<T>>, entries: seq<T>, x: T)
    requires Distinct(entries) && forall batch | batch in batches :: PartOf(batch, entries)
    ensures Gathered(batches)[x] <= |batches|
  {
    if batches != [] {
      var init, last := batches[..|batches| - 1], batches[|batches| - 1];
      GatheredOnce(init, entries, x);
      assert PartOf(last, entries);
      OnceInPart(last, entries, x);
    }
  }

  lemma {:induction false} OnceInPart<T(!new)>(batch: seq<T>, entries: seq<T>, x: T)
    requires Distinct(entries) && PartOf(batch, entries)
    ensures multiset(batch)[x] <= 1
  {
    assert Distinct(batch);
    OnceWhenDistinct(batch, x);
  }

  lemma {:induction false} OnceWhenDistinct<T(!new)>(s: seq<T>, x: T)
    requires Distinct(s)
    ensures multiset(s)[x] <= 1
  {
    if s != [] {
      var init, last := s[..|s| - 1], s[|s| - 1];
      OnceWhenDistinct(init, x);
      assert s == init + [last] && last !in init;
    }
  }

  lemma WriteConserves<T>(c: Config, init: seq<Action<T>>, entry: T)
    requires Conserved(c, Kept(c, init), Replay(c, init).buffer, Entries(init), Dropped(c, init))
    ensures Conserved(c, Kept(c, init), Trimmed(c, Replay(c, init).buffer + [entry]), Entries(init) + [entry],
                      Dropped(c, init) + DroppedNow(c, init))
  {
    hide Without, Replay, Entries, Dropped, Kept;
    var buffer, kept, entries, dropped := Replay(c, init).buffer, Kept(c, init), Entries(init), Dropped(c, init);
    AppendConserves(c, kept, buffer, entries, dropped, entry);
    var grown, all := buffer + [entry], entries + [entry];
    if c.bufferSize > 0 && |grown| > c.bufferSize {
      var oldest: nat := |all| - |grown|;
      assert DroppedNow(c, init) == {oldest};
      TrimConserves(c, kept, grown, all, dropped);
      assert grown[1..] == Trimmed(c, grown);
    } else {
      assert dropped + DroppedNow(c, init) == dropped;
    }
  }

  lemma FlushConserves<T>(c: Config, kept: seq<T>, buffer: seq<T>, entries: seq<T>, dropped: set<nat>)
    requires Conserved(c, kept, buffer, entries, dropped)
    ensures Conserved(c, kept + buffer, [], entries, dropped)
  {
    assert kept + buffer + [] == kept + buffer;
  }

  lemma SameSuffix<T>(a: seq<T>, b: seq<T>, suffix: seq<T>)
    requires a + suffix == b + suffix
    ensures a == b
  {
    assert a == (a + suffix)[..|a|] && b == (b + suffix)[..|b|];
  }

  lemma EmptyWithout<T>(positions: set<nat>)
    ensures Without<T>([], positions) == []
  {
  }

  /** The buffer is the end of what was written, and nothing but the dropped positions is missing. */
  ghost predicate Conserved<T>(c: Config, rows: seq<T>, buffer: seq<T>, entries: seq<T>, dropped: set<nat>) {
    && |buffer| <= |entries| && buffer == entries[|entries| - |buffer|..]
    && rows + buffer == Without(entries, dropped)
    && (forall i | i in dropped :: i < |entries| - |buffer|)
    && (c.bufferSize > 0 ==> |buffer| <= c.bufferSize)
  }

  lemma AppendConserves<T>(c: Config, rows: seq<T>, buffer: seq<T>, entries: seq<T>, dropped: set<nat>, entry: T)
    requires Conserved(c, rows, buffer, entries, dropped)
    ensures Conserved(Config(0, 0), rows, buffer + [entry], entries + [entry], dropped)
  {
    var start, all := |entries| - |buffer|, entries + [entry];
    WithoutMore(entries, dropped, start);
    SameSuffix(rows, Without(entries[..start], dropped), buffer);
    WithoutMore(all, dropped, start);
    assert all[..start] == entries[..start] && all[start..] == buffer + [entry];
  }

  lemma TrimConserves<T>(c: Config, rows: seq<T>, buffer: seq<T>, entries: seq<T>, dropped: set<nat>)
    requires c.bufferSize > 0 && |buffer| == c.bufferSize + 1
    requires Conserved(Config(0, 0), rows, buffer, entries, dropped)
    ensures Conserved(c, rows, buffer[1..], entries, dropped + {|entries| - |buffer|})
  {
    var start, more := |entries| - |buffer|, dropped + {|entries| - |buffer|};
    WithoutMore(entries, dropped, start);
    SameSuffix(rows, Without(entries[..start], dropped), buffer);
    WithoutMore(entries, more, start + 1);
    assert entries[..start + 1] == entries[..start] + [entries[start]];
    DropLast(entries[..start], entries[start], more);
    WithoutSame(entries[..start], more, dropped);
    assert entries[start + 1..] == buffer[1..];
  }

  lemma DropLast<T>(s: seq<T>, x: T, positions: set<nat>)
    requires |s| in positions
    ensures Without(s + [x], positions) == Without(s, positions)
  {
    assert (s + [x])[..|s|] == s;
  }

  /** Batch writes reported as failed one after the other up to now. */
  ghost function RefusedInARow<T>(c: Config, actions: seq<Action<T>>): nat {
    if actions == [] then 0
    else
      var init, last := actions[..|actions| - 1], actions[|actions| - 1];
      if Batch(c, init, last).None? then RefusedInARow(c, init)
      else if last.answer.Saved? then 0 else RefusedInARow(c, init) + 1
  }

  lemma {:induction false} BacklogNeedsRefusals<T>(bufferSize: nat, batchSize: int, actions: seq<Action<T>>)
    requires bufferSize > 0
    ensures var c := Configured(bufferSize, batchSize);
            |Replay(c, actions).buffer| <= c.batchSize - 1 + RefusedInARow(c, actions)
  {
    if actions != [] {
      BacklogNeedsRefusals(bufferSize, batchSize, actions[..|actions| - 1]);
    }
  }

  /** An entry is dropped only by a write that finds the last bufferSize - batchSize + 1 batch writes all reported as failed; in
      particular nothing is dropped while batch writes succeed. */
  lemma DropNeedsRefusals<T>(bufferSize: nat, batchSize: int, init: seq<Action<T>>)
    ensures var c := Configured(bufferSize, batchSize);
            DroppedNow(c, init) != {} ==> bufferSize > 0 && RefusedInARow(c, init) >= bufferSize - c.batchSize + 1
  {
    if bufferSize > 0 {
      BacklogNeedsRefusals(bufferSize, batchSize, init);
    }
  }

  lemma {:induction false} NothingDroppedWhileSaved<T>(bufferSize: nat, batchSize: int, actions: seq<Action<T>>)
    requires forall a | a in actions :: a.answer.Saved?
    ensures var c := Configured(bufferSize, batchSize);
            && RefusedInARow(c, actions) == 0 && Dropped(c, actions) == {} && Copies(c, actions) == []
            && Replay(c, actions).rows + Replay(c, actions).buffer == Entries(actions)
  {
    var c := Configured(bufferSize, batchSize);
    if actions != [] {
      var init := actions[..|actions| - 1];
      NothingDroppedWhileSaved(bufferSize, batchSize, init);
      DropNeedsRefusals(bufferSize, batchSize, init);
      assert actions[|actions| - 1] in actions;
    }
    Conservation(c, actions);
    WithoutNothing(Entries(actions));
  }

  lemma {:induction false} WithoutNothing<T>(s: seq<T>)
    ensures Without(s, {}) == s
  {
    if s != [] {
      WithoutNothing(s[..|s| - 1]);
    }
  }
}
