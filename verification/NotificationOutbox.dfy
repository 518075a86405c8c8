/** The persistent notification outbox (internal/notification/outbox.go): one file per job, retried until sent. */
module NotificationOutbox {
  import opened Common

  datatype Channel = Email | Telegram

  /** A file is named after the hash of channel and key; the hash is taken to be injective. */
  datatype Name = Name(channel: Channel, key: string)

  datatype Message = Message(recipient: string, subject: string, body: string)

  /** `id` numbers the jobs in the order of their creation; it is bookkeeping of the model. */
  datatype Job = Job(id: nat, message: Message, attempts: nat, lastError: string, nextAttempt: int,
                     deliveredAt: Option<int>, cancelledAt: Option<int>)

  /** How a send ends. One that is reported as failed may have been delivered all the same: the mail server accepts the
      message before the closing QUIT, and only that may fail. */
  datatype SendResult = Sent | Failed(message: string, delivered: bool) | Disabled

  predicate Delivers(result: SendResult) {
    result.Sent? || (result.Failed? && result.delivered)
  }

  const MINUTE := 60_000_000_000
  const KEEP := 180 * 24 * 60 * MINUTE
  const PER_PASS: nat := 20

  predicate Completed(job: Job) {
    job.deliveredAt.Some? || job.cancelledAt.Some?
  }

  function CompletedAt(job: Job): int
    requires Completed(job)
  {
    if job.cancelledAt.Some? then job.cancelledAt.value else job.deliveredAt.value
  }

  function Pow2(n: nat): nat {
    if n == 0 then 1 else 2 * Pow2(n - 1)
  }

  /** The job after one more try to send it. */
  function Attempted(job: Job, result: SendResult, now: int): Job {
    match result
    case Disabled => job.(cancelledAt := Some(now), lastError := "notification channel disabled")
    case Failed(message, _) =>
      var tried := job.attempts + 1;
      job.(lastError := if |message| > 1024 then message[..1024] else message, attempts := tried,
           nextAttempt := now + MINUTE * Pow2(Min(tried - 1, 6)))
    case Sent => job.(deliveredAt := Some(now), lastError := "")
  }

  // ---- The state: the directory and what happened to each job ----

  /** A send that was made at the given time and whose result is not yet on disk. */
  datatype Flight = Flight(name: Name, result: SendResult, at: int)

  /** `sent` counts deliveries per job, `lost` the deliveries that never reached the disk as such:
      reported as failed, or not recorded at all. */
  datatype Outbox = Outbox(files: map<Name, Job>, flight: Option<Flight>, issued: nat,
                           sent: multiset<nat>, lost: multiset<nat>, cancelled: set<nat>)

  const EMPTY := Outbox(map[], None, 0, multiset{}, multiset{}, {})

  function Creating(o: Outbox, name: Name, message: Message, now: int): Outbox {
    o.(files := o.files[name := Job(o.issued, message, 0, "", now, None, None)], issued := o.issued + 1)
  }

  function Sending(o: Outbox, name: Name, result: SendResult, at: int): Outbox
    requires name in o.files
  {
    o.(flight := Some(Flight(name, result, at)),
       sent := if Delivers(result) then o.sent + multiset{o.files[name].id} else o.sent)
  }

  function Storing(o: Outbox, stored: bool): Outbox
    requires o.flight.Some? && o.flight.value.name in o.files
  {
    var Flight(name, result, at) := o.flight.value;
    var job := o.files[name];
    if stored then
      o.(files := o.files[name := Attempted(job, result, at)], flight := None,
         cancelled := if result.Disabled? then o.cancelled + {job.id} else o.cancelled,
         lost := if Delivers(result) && !result.Sent? then o.lost + multiset{job.id} else o.lost)
    else Crashed(o)
  }

  /** The result of a send under way is forgotten. */
  function Crashed(o: Outbox): Outbox
    requires o.flight.Some? ==> o.flight.value.name in o.files
  {
    var forgotten := o.flight.Some? && Delivers(o.flight.value.result);
    o.(flight := None, lost := if forgotten then o.lost + multiset{o.files[o.flight.value.name].id} else o.lost)
  }

  datatype Step =
    | Create(name: Name, message: Message, at: int)
    | Send(name: Name, result: SendResult, at: int)
    | Store(stored: bool)
    | Remove(name: Name, at: int)
    | Crash

  ghost predicate Enabled(o: Outbox, step: Step) {
    match step
    case Create(name, _, _) => name !in o.files
    case Send(name, _, at) =>
      o.flight.None? && name in o.files && !Completed(o.files[name]) && o.files[name].nextAttempt <= at
    case Store(_) => o.flight.Some? && o.flight.value.name in o.files
    case Remove(name, at) =>
      o.flight.None? && name in o.files && Completed(o.files[name]) && at - CompletedAt(o.files[name]) > KEEP
    case Crash => o.flight.Some? ==> o.flight.value.name in o.files
  }

  ghost function After(o: Outbox, step: Step): Outbox
    requires Enabled(o, step)
  {
    match step
    case Create(name, message, at) => Creating(o, name, message, at)
    case Send(name, result, at) => Sending(o, name, result, at)
    case Store(stored) => Storing(o, stored)
    case Remove(name, _) => o.(files := o.files - {name})
    case Crash => Crashed(o)
  }

  ghost predicate CanRun(o: Outbox, steps: seq<Step>)
    decreases |steps|, 0
  {
    steps == [] || (CanRun(o, steps[..|steps| - 1]) && Enabled(RunFrom(o, steps[..|steps| - 1]), steps[|steps| - 1]))
  }

  ghost function RunFrom(o: Outbox, steps: seq<Step>): Outbox
    requires CanRun(o, steps)
    decreases |steps|, 1
  {
    if steps == [] then o else After(RunFrom(o, steps[..|steps| - 1]), steps[|steps| - 1])
  }

  // ---- What every run keeps ----

  ghost predicate Waiting(o: Outbox, name: Name, id: nat) {
    name in o.files && o.files[name].id == id && !Completed(o.files[name])
  }

  ghost predicate Accounted(o: Outbox, id: nat) {
    (exists name :: Waiting(o, name, id)) || o.sent[id] >= 1 || id in o.cancelled
  }

  ghost predicate InFlight(o: Outbox, name: Name) {
    o.flight.Some? && o.flight.value.name == name && Delivers(o.flight.value.result)
  }

  ghost predicate FilesSound(o: Outbox) {
    && (o.flight.Some? ==> o.flight.value.name in o.files && !Completed(o.files[o.flight.value.name]))
    && (forall n | n in o.files :: o.files[n].id < o.issued)
    && (forall n, m | n in o.files && m in o.files && n != m :: o.files[n].id != o.files[m].id)
    && (forall n | n in o.files && o.files[n].deliveredAt.Some? :: o.sent[o.files[n].id] >= 1)
    && (forall n | n in o.files && o.files[n].cancelledAt.Some? :: o.files[n].id in o.cancelled)
  }

  ghost predicate CountsSound(o: Outbox) {
    && (forall id: nat | id >= o.issued :: o.sent[id] == 0 && o.lost[id] == 0)
    && (forall id: nat :: o.sent[id] <= o.lost[id] + 1)
    && (forall n | n in o.files && !Completed(o.files[n]) :: CountSound(o, n))
  }

  ghost predicate Inv(o: Outbox) {
    FilesSound(o) && CountsSound(o) && forall id: nat | id < o.issued :: Accounted(o, id)
  }

  lemma StepKeepsFiles(o: Outbox, step: Step)
    requires FilesSound(o) && CountsSound(o) && Enabled(o, step)
    ensures FilesSound(After(o, step))
  {
    hide Attempted, CountsSound, Storing;
    match step
    case Create(_, _, _) => CreateKeepsFiles(o, step);
    case Send(_, _, _) =>
    case Store(stored) => StoreKeepsFiles(o, stored);
    case Remove(_, _) =>
    case Crash =>
  }

  lemma CreateKeepsFiles(o: Outbox, step: Step)
    requires FilesSound(o) && step.Create? && Enabled(o, step)
    ensures FilesSound(After(o, step))
  {
  }

  /** What a recorded try does to its job, but for what a failure adds. */
  lemma AttemptedKeeps(job: Job, result: SendResult, now: int)
    ensures var next := Attempted(job, result, now);
            && next.id == job.id && next.message == job.message
            && next.deliveredAt == (if result.Sent? then Some(now) else job.deliveredAt)
            && next.cancelledAt == (if result.Disabled? then Some(now) else job.cancelledAt)
            && (!result.Failed? ==> next.attempts == job.attempts && next.nextAttempt == job.nextAttempt)
            && (result.Disabled? ==> next.lastError == "notification channel disabled")
            && (result.Sent? ==> next.lastError == "")
  {
  }

  lemma StoreKeepsFiles(o: Outbox, stored: bool)
    requires FilesSound(o) && CountsSound(o) && o.flight.Some?
    ensures FilesSound(Storing(o, stored))
  {
    var next := Storing(o, stored);
    var Flight(name, result, at) := o.flight.value;
    AttemptedKeeps(o.files[name], result, at);
    hide Attempted;
    assert InFlight(o, name) <==> Delivers(result);
    forall n | n in o.files ensures n in next.files && next.files[n].id == o.files[n].id {
    }
    forall n | n in next.files && next.files[n].deliveredAt.Some? ensures next.sent[next.files[n].id] >= 1 {
      assert n != name ==> next.files[n] == o.files[n];
    }
  }

  /** The account of one file that is not completed. */
  ghost predicate CountSound(o: Outbox, n: Name)
    requires n in o.files
  {
    o.sent[o.files[n].id] == o.lost[o.files[n].id] + if InFlight(o, n) then 1 else 0
  }

  lemma StepKeepsCounts(o: Outbox, step: Step)
    requires FilesSound(o) && CountsSound(o) && Enabled(o, step)
    ensures CountsSound(After(o, step))
  {
    var next := After(o, step);
    forall n | n in next.files && !Completed(next.files[n]) ensures CountSound(next, n) {
      StepKeepsCount(o, step, n);
    }
    forall id: nat ensures next.sent[id] <= next.lost[id] + 1 {
      StepKeepsBound(o, step, id);
    }
  }

  lemma StepKeepsCount(o: Outbox, step: Step, n: Name)
    requires FilesSound(o) && CountsSound(o) && Enabled(o, step)
    requires n in After(o, step).files && !Completed(After(o, step).files[n])
    ensures CountSound(After(o, step), n)
  {
    hide Attempted;
    match step
    case Create(name, _, _) =>
      if n != name { assert CountSound(o, n); }
    case Store(_) =>
      var Flight(name, result, at) := o.flight.value;
      AttemptedKeeps(o.files[name], result, at);
      assert n == name || After(o, step).files[n] == o.files[n];
      assert CountSound(o, n);
    case _ => assert CountSound(o, n);
  }

  lemma StepKeepsBound(o: Outbox, step: Step, id: nat)
    requires FilesSound(o) && CountsSound(o) && Enabled(o, step)
    ensures After(o, step).sent[id] <= After(o, step).lost[id] + 1
  {
    match step
    case Send(name, _, _) => assert CountSound(o, name);
    case _ =>
  }

  lemma StepKeepsAccounts(o: Outbox, step: Step, id: nat)
    requires FilesSound(o) && CountsSound(o) && Enabled(o, step) && id < After(o, step).issued
    requires id < o.issued ==> Accounted(o, id)
    ensures Accounted(After(o, step), id)
  {
    hide Attempted, Storing;
    if step.Store? { StoringIssuesNothing(o, step.stored); }
    if id >= o.issued {
      assert Waiting(After(o, step), step.name, id);
    } else if step.Store? {
      StoreKeepsAccounts(o, step.stored, id);
    } else if name :| Waiting(o, name, id) {
      assert Waiting(After(o, step), name, id);
    }
  }

  lemma StoringIssuesNothing(o: Outbox, stored: bool)
    requires o.flight.Some? && o.flight.value.name in o.files
    ensures Storing(o, stored).issued == o.issued
  {
  }

  lemma StoreKeepsAccounts(o: Outbox, stored: bool, id: nat)
    requires FilesSound(o) && CountsSound(o) && o.flight.Some? && Accounted(o, id)
    ensures Accounted(Storing(o, stored), id)
  {
    var Flight(current, result, at) := o.flight.value;
    AttemptedKeeps(o.files[current], result, at);
    hide Attempted;
    var next := Storing(o, stored);
    if name :| Waiting(o, name, id) {
      if name == current && stored && result.Sent? {
        assert CountSound(o, name);
      } else {
        assert Waiting(next, name, id) || id in next.cancelled;
      }
    }
  }

  lemma {:induction false} RunKeepsInv(o: Outbox, steps: seq<Step>)
    requires Inv(o) && CanRun(o, steps)
    ensures Inv(RunFrom(o, steps))
  {
    if steps != [] {
      var init, last := steps[..|steps| - 1], steps[|steps| - 1];
      RunKeepsInv(o, init);
      var before := RunFrom(o, init);
      StepKeepsFiles(before, last);
      StepKeepsCounts(before, last);
      forall id: nat | id < After(before, last).issued ensures Accounted(After(before, last), id) {
        StepKeepsAccounts(before, last, id);
      }
    }
  }

  /** Whatever crashes and failed writes happen, every job ever put in the outbox is waiting on disk, or was sent, or
      was cancelled; and it was sent at most once more than its result was lost. */
  lemma EveryJobAccountedFor(steps: seq<Step>, id: nat)
    requires CanRun(EMPTY, steps) && id < RunFrom(EMPTY, steps).issued
    ensures var o := RunFrom(EMPTY, steps);
            Accounted(o, id) && o.sent[id] <= o.lost[id] + 1
  {
    RunKeepsInv(EMPTY, steps);
  }

  /** The job is the same one, tried at least as often, and untouched if it was completed. */
  ghost predicate SameJob(before: Job, after: Job) {
    && after.id == before.id && after.message == before.message && after.attempts >= before.attempts
    && (Completed(before) ==> after == before)
  }

  /** Cancelled, or else delivered, more than 180 days ago. */
  ghost predicate LongDone(job: Job, now: int) {
    match job.cancelledAt
    case Some(at) => now - at > 15_552_000_000_000_000
    case None => job.deliveredAt.Some? && now - job.deliveredAt.value > 15_552_000_000_000_000
  }

  ghost predicate RemovedWhenOld(o: Outbox, steps: seq<Step>, name: Name, k: nat)
    requires CanRun(o, steps) && k < |steps|
  {
    && CanRun(o, steps[..k])
    && match steps[k]
       case Remove(n, at) =>
         var was := RunFrom(o, steps[..k]).files;
         n == name && name in was && LongDone(was[name], at)
       case _ => false
  }

  /** Over any run a file keeps its job, never recreated or reset, until it is removed 180 days after completion. */
  lemma {:induction false} FileKeepsJob(o: Outbox, steps: seq<Step>, name: Name)
    requires Inv(o) && CanRun(o, steps) && name in o.files
    ensures (exists k: nat | k < |steps| :: RemovedWhenOld(o, steps, name, k)) ||
            (name in RunFrom(o, steps).files && SameJob(o.files[name], RunFrom(o, steps).files[name]))
  {
    if steps != [] {
      var n := |steps| - 1;
      var init := steps[..n];
      FileKeepsJob(o, init, name);
      RunKeepsInv(o, init);
      hide Attempted, Storing, Sending, Creating, CountsSound, Crashed;
      if k: nat :| k < |init| && RemovedWhenOld(o, init, name, k) {
        assert steps[..k] == init[..k];
        assert RemovedWhenOld(o, steps, name, k);
      } else if steps[n].Remove? && steps[n].name == name {
        assert RemovedWhenOld(o, steps, name, n);
      } else {
        StepKeepsJob(RunFrom(o, init), steps[n], name);
      }
    }
  }

  lemma StepKeepsJob(o: Outbox, step: Step, name: Name)
    requires FilesSound(o) && Enabled(o, step) && name in o.files && !(step.Remove? && step.name == name)
    ensures name in After(o, step).files && SameJob(o.files[name], After(o, step).files[name])
  {
  }

  /** What can come between a delivery and its record: a crash, a failed write, a failure reported after acceptance. */
  ghost predicate Faulty(step: Step) {
    step.Crash? || (step.Store? && !step.stored) || (step.Send? && Delivers(step.result) && !step.result.Sent?)
  }

  /** Without such faults nothing is sent twice. */
  lemma {:induction false} SentOnceWithoutFaults(steps: seq<Step>, id: nat)
    requires CanRun(EMPTY, steps)
    requires forall step | step in steps :: !Faulty(step)
    ensures var o := RunFrom(EMPTY, steps);
            && o.lost == multiset{} && o.sent[id] <= 1
            && (o.flight.Some? && Delivers(o.flight.value.result) ==> o.flight.value.result.Sent?)
  {
    RunKeepsInv(EMPTY, steps);
    if steps != [] {
      assert steps[|steps| - 1] in steps;
      SentOnceWithoutFaults(steps[..|steps| - 1], id);
    }
  }

  datatype Fault = CrashBeforeRecord | WriteFails | ReportedAsFailed

  /** A try at the given time that the fault hits. */
  function StepsOf(name: Name, fault: Fault, at: int): seq<Step> {
    match fault
    case CrashBeforeRecord => [Send(name, Sent, at), Crash]
    case WriteFails => [Send(name, Sent, at), Store(false)]
    case ReportedAsFailed => [Send(name, Failed("SMTP QUIT failed", true), at), Store(true)]
  }

  /** A run in which the given faults hit one job, one after the other, 64 minutes apart. */
  function FaultAfterFault(name: Name, message: Message, faults: seq<Fault>): seq<Step> {
    if faults == [] then [Create(name, message, 0)]
    else
      var n := |faults| - 1;
      FaultAfterFault(name, message, faults[..n]) + StepsOf(name, faults[n], n * 64 * MINUTE)
  }

  lemma {:induction false} FaultsReached(name: Name, message: Message, faults: seq<Fault>)
    ensures CanRun(EMPTY, FaultAfterFault(name, message, faults))
    ensures var o := RunFrom(EMPTY, FaultAfterFault(name, message, faults));
            && o.flight.None? && Waiting(o, name, 0) && o.sent[0] == |faults| && o.lost[0] == |faults|
            && o.files[name].nextAttempt <= |faults| * 64 * MINUTE
  {
    if faults == [] {
      var s := Extend(EMPTY, [], Create(name, message, 0));
      assert s == FaultAfterFault(name, message, faults);
    } else {
      var n := |faults| - 1;
      FaultsReached(name, message, faults[..n]);
      var s := FaultAfterFault(name, message, faults[..n]);
      var t := OneMoreFault(s, name, faults[n], n * 64 * MINUTE);
      assert t == FaultAfterFault(name, message, faults);
    }
  }

  lemma OneMoreFault(steps: seq<Step>, name: Name, fault: Fault, at: int) returns (more: seq<Step>)
    requires CanRun(EMPTY, steps) && RunFrom(EMPTY, steps).flight.None? && Waiting(RunFrom(EMPTY, steps), name, 0)
    requires RunFrom(EMPTY, steps).files[name].nextAttempt <= at
    ensures more == steps + StepsOf(name, fault, at)
    ensures CanRun(EMPTY, more)
    ensures var o, v := RunFrom(EMPTY, steps), RunFrom(EMPTY, more);
            && v.flight.None? && Waiting(v, name, 0) && v.sent[0] == o.sent[0] + 1 && v.lost[0] == o.lost[0] + 1
            && v.files[name].nextAttempt <= at + 64 * MINUTE
  {
    hide RunFrom, CanRun, Attempted;
    var both := StepsOf(name, fault, at);
    AttemptedKeeps(RunFrom(EMPTY, steps).files[name], both[0].result, at);
    WaitIsShort(RunFrom(EMPTY, steps).files[name], both[0].result, at);
    more := Extend(EMPTY, steps, both[0]);
    more := Extend(EMPTY, more, both[1]);
  }

  lemma WaitIsShort(job: Job, result: SendResult, at: int)
    requires job.nextAttempt <= at
    ensures job.nextAttempt <= Attempted(job, result, at).nextAttempt <= at + 64 * MINUTE
  {
    if result.Failed? { RetryDelay(job, result.message, result.delivered, at); }
  }

  /** The bound is reached: n faults of the three kinds, in any order, and a send after them make n + 1 deliveries. */
  lemma FaultsDuplicate(name: Name, message: Message, faults: seq<Fault>)
    ensures var steps := FaultAfterFault(name, message, faults) + [Send(name, Sent, |faults| * 64 * MINUTE)];
            CanRun(EMPTY, steps) && RunFrom(EMPTY, steps).sent[0] == |faults| + 1
  {
    FaultsReached(name, message, faults);
    var steps := Extend(EMPTY, FaultAfterFault(name, message, faults), Send(name, Sent, |faults| * 64 * MINUTE));
  }

  /** The wait after the k-th failure is 2^(k-1) minutes, but no more than 64. */
  lemma RetryDelay(job: Job, message: string, delivered: bool, now: int)
    ensures var next := Attempted(job, Failed(message, delivered), now);
            && next.nextAttempt - now == 60_000_000_000 * Min(Pow2(next.attempts - 1), 64)
            && next.attempts == job.attempts + 1
            && next.lastError <= message && |next.lastError| == Min(|message|, 1024)
  {
    var n := job.attempts;
    Pow2Monotone(Min(n, 6), if n < 6 then 6 else n);
    assert Pow2(6) == 64 by { assert Pow2(3) == 8; }
  }

  lemma {:induction false} Pow2Monotone(a: nat, b: nat)
    requires a <= b
    ensures Pow2(a) <= Pow2(b)
  {
    if a < b {
      Pow2Monotone(a, b - 1);
    }
  }

  // ---- Waiting between tries ----

  lemma {:induction false} PrefixRuns(o: Outbox, steps: seq<Step>, k: nat)
    requires CanRun(o, steps) && k <= |steps|
    ensures CanRun(o, steps[..k])
  {
    if k < |steps| {
      var init := steps[..|steps| - 1];
      PrefixRuns(o, init, k);
      assert init[..k] == steps[..k];
    } else {
      assert steps[..k] == steps;
    }
  }

  /** The state before step k. */
  ghost function At(o: Outbox, steps: seq<Step>, k: nat): Outbox
    requires CanRun(o, steps) && k <= |steps|
  {
    PrefixRuns(o, steps, k);
    RunFrom(o, steps[..k])
  }

  lemma AtNext(o: Outbox, steps: seq<Step>, k: nat)
    requires CanRun(o, steps) && k < |steps|
    ensures Enabled(At(o, steps, k), steps[k]) && At(o, steps, k + 1) == After(At(o, steps, k), steps[k])
  {
    PrefixRuns(o, steps, k + 1);
    assert steps[..k + 1][..k] == steps[..k];
  }

  /** Step k records a failed try of the job with that number. */
  ghost predicate RecordsFailure(o: Outbox, steps: seq<Step>, k: nat, id: nat)
    requires CanRun(o, steps) && k < |steps|
  {
    var before := At(o, steps, k);
    && steps[k] == Store(true) && before.flight.Some? && before.flight.value.result.Failed?
    && before.flight.value.name in before.files && before.files[before.flight.value.name].id == id
  }

  /** How many failures of the job the first k steps recorded. */
  ghost function Failures(o: Outbox, steps: seq<Step>, id: nat, k: nat): nat
    requires CanRun(o, steps) && k <= |steps|
  {
    if k == 0 then 0 else Failures(o, steps, id, k - 1) + if RecordsFailure(o, steps, k - 1, id) then 1 else 0
  }

  lemma {:induction false} FilesAtK(steps: seq<Step>, k: nat)
    requires CanRun(EMPTY, steps) && k <= |steps|
    ensures FilesSound(At(EMPTY, steps, k)) && Timely(At(EMPTY, steps, k))
  {
    PrefixRuns(EMPTY, steps, k);
    RunKeepsInv(EMPTY, steps[..k]);
    if k > 0 {
      FilesAtK(steps, k - 1);
      AtNext(EMPTY, steps, k - 1);
    }
  }

  /** A send under way was made no earlier than its job allowed. */
  ghost predicate Timely(o: Outbox) {
    o.flight.Some? && o.flight.value.name in o.files ==> o.files[o.flight.value.name].nextAttempt <= o.flight.value.at
  }

  /** The attempts of a job are its recorded failures. */
  lemma {:induction false} AttemptsAreFailures(steps: seq<Step>, k: nat)
    requires CanRun(EMPTY, steps) && k <= |steps|
    ensures var o := At(EMPTY, steps, k);
            && (forall name | name in o.files :: o.files[name].attempts == Failures(EMPTY, steps, o.files[name].id, k))
            && (forall id: nat | id >= o.issued :: Failures(EMPTY, steps, id, k) == 0)
  {
    if k > 0 {
      hide After, Enabled, FilesSound, Timely, RecordsFailure, CanRun, At;
      AttemptsAreFailures(steps, k - 1);
      FilesAtK(steps, k - 1);
      CountsOneMore(steps, k - 1);
      var o, next := At(EMPTY, steps, k - 1), At(EMPTY, steps, k);
      forall name | name in next.files
        ensures next.files[name].attempts == Failures(EMPTY, steps, next.files[name].id, k)
      {
        assert name !in o.files ==> Failures(EMPTY, steps, o.issued, k - 1) == 0;
      }
    } else {
      NothingCounted(steps);
    }
  }

  lemma NothingCounted(steps: seq<Step>)
    requires CanRun(EMPTY, steps)
    ensures At(EMPTY, steps, 0).files == map[]
  {
    assert steps[..0] == [];
  }

  /** A step records a failure of the one job whose attempts it raises, and changes no other attempts. */
  lemma CountsOneMore(steps: seq<Step>, k: nat)
    requires CanRun(EMPTY, steps) && k < |steps| && FilesSound(At(EMPTY, steps, k))
    ensures var o, next := At(EMPTY, steps, k), At(EMPTY, steps, k + 1);
            && next.issued >= o.issued
            && (forall id: nat | id >= o.issued :: !RecordsFailure(EMPTY, steps, k, id))
            && forall name | name in next.files ::
                 (name !in o.files && next.files[name].id == o.issued < next.issued && next.files[name].attempts == 0) ||
                 (name in o.files && next.files[name].id == o.files[name].id &&
                  next.files[name].attempts == o.files[name].attempts +
                                               if RecordsFailure(EMPTY, steps, k, o.files[name].id) then 1 else 0)
  {
    AtNext(EMPTY, steps, k);
    var o, step := At(EMPTY, steps, k), steps[k];
    if step.Store? {
      var Flight(name, result, at) := o.flight.value;
      AttemptedKeeps(o.files[name], result, at);
      AttemptedCounts(o.files[name], result, at);
    }
    hide Attempted, At, CanRun;
  }

  /** From then on the job is not tried again before the given time. */
  ghost predicate WaitsUntil(o: Outbox, id: nat, time: int) {
    id < o.issued && forall name | name in o.files && o.files[name].id == id :: o.files[name].nextAttempt >= time
  }

  lemma StepKeepsWaiting(o: Outbox, step: Step, id: nat, time: int)
    requires FilesSound(o) && Timely(o) && Enabled(o, step) && WaitsUntil(o, id, time)
    ensures WaitsUntil(After(o, step), id, time)
  {
    hide Attempted;
    if step.Store? {
      var Flight(name, result, at) := o.flight.value;
      WaitIsShort(o.files[name], result, at);
      AttemptedKeeps(o.files[name], result, at);
    }
  }

  lemma {:induction false} KeepsWaiting(steps: seq<Step>, i: nat, j: nat, id: nat, time: int)
    requires CanRun(EMPTY, steps) && i <= j <= |steps| && WaitsUntil(At(EMPTY, steps, i), id, time)
    ensures WaitsUntil(At(EMPTY, steps, j), id, time)
  {
    hide WaitsUntil, Enabled;
    if i < j {
      KeepsWaiting(steps, i, j - 1, id, time);
      FilesAtK(steps, j - 1);
      AtNext(EMPTY, steps, j - 1);
      StepKeepsWaiting(At(EMPTY, steps, j - 1), steps[j - 1], id, time);
    }
  }

  /** Backoff, over every run: once the k-th failure of a job is recorded, no later try of it comes earlier than 2^(k-1)
      minutes after the failed one, or 64 minutes if that is less. */
  lemma TriesFarApart(steps: seq<Step>, i: nat, j: nat, id: nat)
    requires CanRun(EMPTY, steps) && i < j < |steps| && RecordsFailure(EMPTY, steps, i, id) && steps[j].Send?
    requires var o := At(EMPTY, steps, j); steps[j].name in o.files && o.files[steps[j].name].id == id
    ensures var k := Failures(EMPTY, steps, id, i + 1);
            k >= 1 && steps[j].at - At(EMPTY, steps, i).flight.value.at >= 60_000_000_000 * Min(Pow2(k - 1), 64)
  {
    hide *;
    var o := At(EMPTY, steps, i);
    RecordedHere(steps, i, id);
    FilesAtK(steps, i);
    AtNext(EMPTY, steps, i);
    AttemptsAreFailures(steps, i + 1);
    FailureWaits(o);
    var k := Failures(EMPTY, steps, id, i + 1);
    var time := o.flight.value.at + 60_000_000_000 * Min(Pow2(k - 1), 64);
    KeepsWaiting(steps, i + 1, j, id, time);
    AtNext(EMPTY, steps, j);
    NotTriedBefore(At(EMPTY, steps, j), steps[j], id, time);
  }

  lemma RecordedHere(steps: seq<Step>, k: nat, id: nat)
    requires CanRun(EMPTY, steps) && k < |steps| && RecordsFailure(EMPTY, steps, k, id)
    ensures var o := At(EMPTY, steps, k);
            && steps[k] == Store(true) && o.flight.Some? && o.flight.value.result.Failed?
            && o.flight.value.name in o.files && o.files[o.flight.value.name].id == id
  {
  }

  lemma NotTriedBefore(o: Outbox, step: Step, id: nat, time: int)
    requires WaitsUntil(o, id, time) && Enabled(o, step) && step.Send? && o.files[step.name].id == id
    ensures step.at >= time
  {
  }

  lemma FailureWaits(o: Outbox)
    requires FilesSound(o) && o.flight.Some? && o.flight.value.result.Failed? && o.flight.value.name in o.files
    ensures var Flight(name, _, at) := o.flight.value;
            var next := After(o, Store(true));
            && name in next.files && next.files[name].id == o.files[name].id && next.files[name].attempts >= 1
            && WaitsUntil(next, o.files[name].id, at + 60_000_000_000 * Min(Pow2(next.files[name].attempts - 1), 64))
  {
    var Flight(name, result, at) := o.flight.value;
    RetryDelay(o.files[name], result.message, result.delivered, at);
    AttemptedKeeps(o.files[name], result, at);
    AttemptedCounts(o.files[name], result, at);
    hide Attempted, CountsSound;
  }

  lemma AttemptedCounts(job: Job, result: SendResult, at: int)
    ensures Attempted(job, result, at).attempts == job.attempts + if result.Failed? then 1 else 0
  {
  }

  // ---- One pass over the directory ----

  /** What the surroundings do during a pass: which files can be read, how sends end, which new versions of a file get to the
      disk (a write that only reports an error after that is one of them), which removals work. */
  datatype Pass = Pass(now: int, readable: set<Name>, send: Name -> SendResult, stored: set<Name>, removable: set<Name>)

  predicate Due(o: Outbox, p: Pass, name: Name) {
    name in o.files && name in p.readable && !Completed(o.files[name]) && p.now >= o.files[name].nextAttempt
  }

  predicate Old(o: Outbox, p: Pass, name: Name) {
    name in o.files && name in p.readable && Completed(o.files[name]) && p.now - CompletedAt(o.files[name]) > KEEP
  }

  function Visited(o: Outbox, p: Pass, name: Name, processed: nat): Outbox {
    if Due(o, p, name) && processed < PER_PASS then
      Storing(Sending(o, name, p.send(name), p.now), name in p.stored)
    else if Old(o, p, name) && name in p.removable then o.(files := o.files - {name})
    else o
  }

  /** How many of the names are due, up to the limit of a pass. */
  function Processed(o: Outbox, p: Pass, names: seq<Name>): nat {
    if names == [] then 0
    else Processed(o, p, names[..|names| - 1]) + if Due(o, p, names[|names| - 1]) && Processed(o, p, names[..|names| - 1]) < PER_PASS then 1 else 0
  }

  function PassOver(o: Outbox, p: Pass, names: seq<Name>): Outbox {
    if names == [] then o
    else
      var init, last := names[..|names| - 1], names[|names| - 1];
      Visited(PassOver(o, p, init), p, last, Processed(o, p, init))
  }

  /** What a pass does to one file: everything due is tried once until the limit is reached, and only files completed
      more than 180 days ago disappear. */
  lemma {:induction false} PassEffect(o: Outbox, p: Pass, names: seq<Name>, name: Name)
    requires Distinct(names) && o.flight.None?
    ensures var after := PassOver(o, p, names);
            && after.flight.None? && after.issued == o.issued
            && (name !in names || name !in o.files ==> (name in after.files <==> name in o.files))
            && (name in o.files ==>
                  (name !in after.files <==>
                     name in names && name in p.readable && name in p.removable && LongDone(o.files[name], p.now)))
            && (name in o.files && name in after.files ==>
                  after.files[name] == o.files[name] ||
                  (Due(o, p, name) && name in p.stored && after.files[name] == Attempted(o.files[name], p.send(name), p.now)))
            && (name !in names && name in o.files ==> after.files[name] == o.files[name])
            && (Processed(o, p, names) < PER_PASS && name in names && Due(o, p, name) && name in p.stored ==>
                  name in after.files && after.files[name] == Attempted(o.files[name], p.send(name), p.now))
    ensures Processed(o, p, names) <= 20
  {
    if names != [] {
      var init, last := names[..|names| - 1], names[|names| - 1];
      PassEffect(o, p, init, name);
      PassEffect(o, p, init, last);
      assert last !in init;
      assert Due(PassOver(o, p, init), p, last) == Due(o, p, last);
    }
  }

  /** The files that the steps try to send, in order. */
  function TriedBy(steps: seq<Step>): seq<Name> {
    if steps == [] then []
    else
      var last := steps[|steps| - 1];
      TriedBy(steps[..|steps| - 1]) + if last.Send? then [last.name] else []
  }

  /** The pass tries this file, if it has tries left when it comes to it: it can be read, its job is neither sent nor
      cancelled, and its time has come. */
  ghost predicate Ready(o: Outbox, p: Pass, name: Name) {
    && name in o.files && name in p.readable
    && o.files[name].deliveredAt == None && o.files[name].cancelledAt == None && o.files[name].nextAttempt <= p.now
  }

  ghost function TriedAmong(names: seq<Name>, tried: seq<Name>): set<Name> {
    set n | n in names && n in tried
  }

  /** Of the names, exactly the ready ones with fewer than twenty tried ones before them are tried, each once. */
  ghost predicate TriesExactly(o: Outbox, p: Pass, names: seq<Name>, tried: seq<Name>) {
    && Distinct(tried) && (forall n | n in tried :: n in names)
    && forall i | 0 <= i < |names| ::
         names[i] in tried <==> Ready(o, p, names[i]) && |TriedAmong(names[..i], tried)| < 20
  }

  /** A pass is a run of single steps, so a crash anywhere inside it leaves a state of some run. It tries exactly the files
      that are ready and have fewer than twenty tried ones before them, each once. */
  lemma {:induction false} PassIsRun(o: Outbox, p: Pass, names: seq<Name>) returns (steps: seq<Step>)
    requires Distinct(names) && o.flight.None?
    ensures CanRun(o, steps) && RunFrom(o, steps) == PassOver(o, p, names)
    ensures TriesExactly(o, p, names, TriedBy(steps)) && |TriedBy(steps)| == Processed(o, p, names)
  {
    hide Due, Old, TriesExactly, CanRun, RunFrom, TriedBy, Visited;
    if names == [] {
      steps := NothingRun(o, p);
    } else {
      var init, last := names[..|names| - 1], names[|names| - 1];
      var before := PassIsRun(o, p, init);
      PassEffect(o, p, init, last);
      NextVisit(o, p, names, |names| - 1);
      assert names[..|names|] == names;
      steps := VisitIsRun(o, before, p, last, Processed(o, p, init));
      TriedCounted(o, p, names, TriedBy(before), TriedBy(steps));
    }
  }

  lemma NothingRun(o: Outbox, p: Pass) returns (steps: seq<Step>)
    ensures steps == [] && CanRun(o, steps) && RunFrom(o, steps) == o && TriedBy(steps) == [] && TriesExactly(o, p, [], [])
  {
    steps := [];
  }

  /** One visit is at most a try and its record, or a removal. */
  lemma VisitIsRun(o: Outbox, before: seq<Step>, p: Pass, name: Name, processed: nat) returns (steps: seq<Step>)
    requires CanRun(o, before) && RunFrom(o, before).flight.None?
    ensures CanRun(o, steps) && RunFrom(o, steps) == Visited(RunFrom(o, before), p, name, processed)
    ensures TriedBy(steps) ==
              TriedBy(before) + if Due(RunFrom(o, before), p, name) && processed < PER_PASS then [name] else []
  {
    hide CanRun, RunFrom, TriedBy, Attempted;
    var mid := RunFrom(o, before);
    if Due(mid, p, name) && processed < PER_PASS {
      var sent := Extend(o, before, Send(name, p.send(name), p.now));
      TriedNext(before, sent[|sent| - 1]);
      steps := Extend(o, sent, Store(name in p.stored));
      TriedNext(sent, steps[|steps| - 1]);
    } else if Old(mid, p, name) && name in p.removable {
      steps := Extend(o, before, Remove(name, p.now));
      TriedNext(before, steps[|steps| - 1]);
    } else {
      steps := before;
    }
  }

  lemma TriedNext(steps: seq<Step>, step: Step)
    ensures TriedBy(steps + [step]) == TriedBy(steps) + if step.Send? then [step.name] else []
  {
    assert (steps + [step])[..|steps|] == steps;
  }

  lemma TriedCounted(o: Outbox, p: Pass, names: seq<Name>, before: seq<Name>, after: seq<Name>)
    requires names != [] && Distinct(names) && TriesExactly(o, p, names[..|names| - 1], before)
    requires |before| <= PER_PASS
    requires after == before + if Due(o, p, names[|names| - 1]) && |before| < PER_PASS then [names[|names| - 1]] else []
    ensures TriesExactly(o, p, names, after)
  {
    hide Due, Ready, TriedAmong;
    var n := |names| - 1;
    var init, last := names[..n], names[n];
    assert last !in init && last !in before;
    forall i | 0 <= i < n
      ensures names[i] in after <==> Ready(o, p, names[i]) && |TriedAmong(names[..i], after)| < 20
    {
      assert names[..i] == init[..i] && names[i] == init[i] && names[i] in init;
      SameTried(names[..i], before, after, last);
    }
    DueIsReady(o, p, last);
    SameTried(init, before, after, last);
    AllTried(init, before);
  }

  lemma AllTried(names: seq<Name>, tried: seq<Name>)
    requires Distinct(tried) && forall n | n in tried :: n in names
    ensures |TriedAmong(names, tried)| == |tried|
  {
    DistinctSize(tried);
    assert TriedAmong(names, tried) == set m | m in tried;
  }

  lemma DueIsReady(o: Outbox, p: Pass, name: Name)
    ensures Due(o, p, name) == Ready(o, p, name)
  {
  }

  lemma SameTried(names: seq<Name>, before: seq<Name>, after: seq<Name>, last: Name)
    requires last !in names && (after == before || after == before + [last])
    ensures TriedAmong(names, after) == TriedAmong(names, before)
  {
  }

  lemma Extend(o: Outbox, steps: seq<Step>, step: Step) returns (longer: seq<Step>)
    requires CanRun(o, steps) && Enabled(RunFrom(o, steps), step)
    ensures longer == steps + [step] && CanRun(o, longer) && RunFrom(o, longer) == After(RunFrom(o, steps), step)
  {
    longer := steps + [step];
    assert longer[..|longer| - 1] == steps;
  }

  // ---- The service ----

  datatype Config = Config(email: bool, telegram: bool, adminEmail: string, smtpUser: string, telegramChatID: string)

  function KeyOf(key: string, subject: string, body: string): string {
    if key == "" then subject + "\n" + body else key
  }

  function AdminJobs(cfg: Config, key: string, subject: string, body: string): seq<(Name, Message)> {
    var address := if Trim(cfg.adminEmail) == "" then Trim(cfg.smtpUser) else Trim(cfg.adminEmail);
    var k := KeyOf(key, subject, body);
    (if cfg.email && address != "" then [(Name(Email, k), Message(address, subject, body))] else []) +
    (if cfg.telegram then [(Name(Telegram, k), Message(cfg.telegramChatID, subject, body))] else [])
  }

  /** Who is told, and how: by e-mail the administrator, else the sending account, if either address is more than blanks;
      by Telegram the configured chat. The file is named by the key, or by the text when there is no key. */
  lemma AdminJobsAre(cfg: Config, key: string, subject: string, body: string, name: Name, message: Message)
    ensures (name, message) in AdminJobs(cfg, key, subject, body) <==>
              && name.key == (if key != "" then key else subject + "\n" + body)
              && message.subject == subject && message.body == body
              && match name.channel
                 case Email =>
                   && cfg.email && message.recipient != ""
                   && message.recipient == if !Blank(cfg.adminEmail) then Trim(cfg.adminEmail) else Trim(cfg.smtpUser)
                 case Telegram => cfg.telegram && message.recipient == cfg.telegramChatID
    ensures |AdminJobs(cfg, key, subject, body)| == 2 ==> AdminJobs(cfg, key, subject, body)[0].0.channel == Email
  {
    BlankExactlyWhen(cfg.adminEmail);
    hide Trim, Blank;
  }

  /** How putting a job into its file ends: it is unknown whether the file exists; it is not written; it is written but an
      error is reported, since the directory could not be synced after the rename; or it is written. */
  datatype WriteResult = Unexamined | NotWritten | WrittenUnsynced | Written

  /** Files are written in order up to the first error; an existing file is left alone. */
  function Enqueued(o: Outbox, jobs: seq<(Name, Message)>, write: Name -> WriteResult, now: int): Outbox
    decreases |jobs|
  {
    if jobs == [] || write(jobs[0].0).Unexamined? then o
    else if jobs[0].0 in o.files then Enqueued(o, jobs[1..], write, now)
    else
      match write(jobs[0].0)
      case NotWritten => o
      case WrittenUnsynced => Creating(o, jobs[0].0, jobs[0].1, now)
      case Written => Enqueued(Creating(o, jobs[0].0, jobs[0].1, now), jobs[1..], write, now)
  }

  /** Every enabled channel ends up with a file of that key unless there is an error; files that existed do not change. */
  lemma {:induction false} EnqueueEffect(o: Outbox, jobs: seq<(Name, Message)>, write: Name -> WriteResult, now: int)
    ensures var after := Enqueued(o, jobs, write, now);
            && (forall n | n in o.files :: n in after.files && after.files[n] == o.files[n])
            && (forall n | n in after.files && n !in o.files ::
                  && (write(n).Written? || write(n).WrittenUnsynced?)
                  && !Completed(after.files[n]) && after.files[n].nextAttempt == now
                  && after.files[n].attempts == 0 && after.files[n].lastError == "" && Ordered(jobs, n, after.files[n].message))
            && ((forall i | 0 <= i < |jobs| :: write(jobs[i].0).Written?) ==> forall i | 0 <= i < |jobs| :: jobs[i].0 in after.files)
    decreases |jobs|
  {
    if jobs != [] && !write(jobs[0].0).Unexamined? {
      var created := jobs[0].0 !in o.files && (write(jobs[0].0).Written? || write(jobs[0].0).WrittenUnsynced?);
      var next := if created then Creating(o, jobs[0].0, jobs[0].1, now) else o;
      assert Ordered(jobs, jobs[0].0, jobs[0].1);
      EnqueueEffect(next, jobs[1..], write, now);
      forall n, message | Ordered(jobs[1..], n, message) ensures Ordered(jobs, n, message) {
        var i :| 0 <= i < |jobs[1..]| && jobs[1..][i] == (n, message);
        assert jobs[i + 1] == (n, message);
      }
    }
  }

  ghost predicate Ordered(jobs: seq<(Name, Message)>, name: Name, message: Message) {
    exists i | 0 <= i < |jobs| :: jobs[i] == (name, message)
  }

  /** The file of the job is there already, or gets written without an error. */
  ghost predicate PutWorks(o: Outbox, write: Name -> WriteResult, name: Name) {
    !write(name).Unexamined? && (name in o.files || write(name).Written?)
  }

  class Service {
    var config: Option<Config>
    /** The directory together with the account of deliveries. */
    var outbox: Outbox

    constructor (config: Option<Config>)
      ensures this.config == config && outbox == EMPTY
    {
      this.config, outbox := config, EMPTY;
    }

    method EnqueueAdmin(key: string, subject: string, body: string, write: Name -> WriteResult, now: int) returns (ok: bool)
      modifies this`outbox
      ensures config.None? ==> ok && outbox == old(outbox)
      ensures config.Some? ==>
                var jobs := AdminJobs(config.value, key, subject, body);
                && outbox == Enqueued(old(outbox), jobs, write, now)
                && (ok <==> forall i | 0 <= i < |jobs| :: PutWorks(old(outbox), write, jobs[i].0))
                && (ok ==> forall i | 0 <= i < |jobs| :: jobs[i].0 in outbox.files)
    {
      if config.None? { return true; }
      var jobs := AdminJobs(config.value, key, subject, body);
      var i := 0;
      while i < |jobs|
        invariant 0 <= i <= |jobs|
        invariant Enqueued(outbox, jobs[i..], write, now) == Enqueued(old(outbox), jobs, write, now)
        invariant forall k | 0 <= k < i :: jobs[k].0 in outbox.files && PutWorks(old(outbox), write, jobs[k].0)
        invariant forall n | n in outbox.files :: n in old(outbox).files || write(n).Written?
        invariant forall n | n in old(outbox).files :: n in outbox.files
      {
        assert jobs[i..][1..] == jobs[i + 1..];
        var (name, message) := jobs[i];
        var result := write(name);
        if result.Unexamined? { return false; }
        if name !in outbox.files {
          if !result.NotWritten? {
            outbox := Creating(outbox, name, message, now);
          }
          if !result.Written? {
            return false;
          }
        }
        i := i + 1;
      }
      return true;
    }

    /** `names` lists the directory. */
    method ProcessOutbox(p: Pass, names: seq<Name>)
      requires Distinct(names) && outbox.flight.None?
      modifies this`outbox
      ensures outbox == PassOver(old(outbox), p, names)
    {
      var processed := 0;
      for i := 0 to |names|
        invariant outbox == PassOver(old(outbox), p, names[..i]) && processed == Processed(old(outbox), p, names[..i])
      {
        NextVisit(old(outbox), p, names, i);
        processed := ProcessFile(p, names[i], processed);
      }
      assert names[..|names|] == names;
    }

    method ProcessFile(p: Pass, name: Name, processed: nat) returns (total: nat)
      requires outbox.flight.None?
      modifies this`outbox
      ensures outbox == Visited(old(outbox), p, name, processed)
      ensures total == processed + if Due(old(outbox), p, name) && processed < PER_PASS then 1 else 0
    {
      total := processed;
      if name !in p.readable || name !in outbox.files { return; }
      var job := outbox.files[name];
      if Completed(job) {
        if p.now - CompletedAt(job) > KEEP && name in p.removable {
          outbox := outbox.(files := outbox.files - {name});
        }
        return;
      }
      if p.now < job.nextAttempt || processed >= PER_PASS { return; }
      total := processed + 1;
      outbox := Sending(outbox, name, p.send(name), p.now);
      outbox := Storing(outbox, name in p.stored);
    }
  }

  /** Earlier visits of a pass leave the file that comes next alone. */
  lemma NextVisit(o: Outbox, p: Pass, names: seq<Name>, i: nat)
    requires Distinct(names) && o.flight.None? && i < |names|
    ensures var mid, processed := PassOver(o, p, names[..i]), Processed(o, p, names[..i]);
            && mid.flight.None?
            && Due(mid, p, names[i]) == Due(o, p, names[i])
            && PassOver(o, p, names[..i + 1]) == Visited(mid, p, names[i], processed)
            && Processed(o, p, names[..i + 1]) == processed + if Due(o, p, names[i]) && processed < PER_PASS then 1 else 0
  {
    assert names[..i + 1][..i] == names[..i] && names[i] !in names[..i];
    PassEffect(o, p, names[..i], names[i]);
  }
}
