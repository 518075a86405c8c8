/** Moving the users of a failed node to other nodes with bounded concurrency (internal/node/failover_manager.go).
    Every migration is a task of its own; a task's steps interleave freely with those of the others. */
module FailoverMigration {
  import opened Common

  /** One call of migrateUsers. */
  datatype Call = Call(users: seq<int>, targets: seq<int>, limit: int)

  datatype MigrationResult = MigrationResult(user: int, target: int, success: bool)

  /** A task waits for a slot, counts itself, reassigns its user, stores the result, frees the slot and only then
      uncounts itself. */
  datatype Phase = Waiting | Admitted | Counted | Reassigned(success: bool) | Stored | Released | Finished

  function Rank(p: Phase): nat {
    match p
    case Waiting => 0
    case Admitted => 1
    case Counted => 2
    case Reassigned(_) => 3
    case Stored => 4
    case Released => 5
    case Finished => 6
  }

  /** `counter` is the shared counter of running migrations, `others` the part of it that belongs to other calls;
      `calls` counts the reassignments made per task. */
  datatype State = State(phases: seq<Phase>, results: seq<Option<MigrationResult>>, counter: int, others: int,
                         calls: multiset<nat>, assignment: map<int, int>)

  function Target(c: Call, i: nat): int
    requires c.targets != []
  {
    c.targets[i % |c.targets|]
  }

  function Start(c: Call, counter: int, assignment: map<int, int>): State {
    State(seq(|c.users|, i => Waiting), seq(|c.users|, i => None), counter, counter, multiset{}, assignment)
  }

  function Ranked(phases: seq<Phase>, low: nat, high: nat): set<nat> {
    set i: nat | i < |phases| && low <= Rank(phases[i]) <= high
  }

  /** The tasks that hold a slot, and those included in the counter. */
  function Holders(s: State): set<nat> {
    Ranked(s.phases, 1, 4)
  }

  function CountedTasks(s: State): set<nat> {
    Ranked(s.phases, 2, 5)
  }

  predicate CanStep(c: Call, s: State, i: nat) {
    && i < |s.phases| && s.phases[i] != Finished
    && (s.phases[i] == Waiting ==> |Holders(s)| < c.limit)
  }

  function Stepped(c: Call, s: State, i: nat, ok: bool): State
    requires c.targets != [] && i < |s.phases| == |s.results| == |c.users|
  {
    match s.phases[i]
    case Waiting => s.(phases := s.phases[i := Admitted])
    case Admitted => s.(phases := s.phases[i := Counted], counter := s.counter + 1)
    case Counted =>
      s.(phases := s.phases[i := Reassigned(ok)], calls := s.calls + multiset{i},
         assignment := if ok then s.assignment[c.users[i] := Target(c, i)] else s.assignment)
    case Reassigned(success) =>
      s.(phases := s.phases[i := Stored], results := s.results[i := Some(MigrationResult(c.users[i], Target(c, i), success))])
    case Stored => s.(phases := s.phases[i := Released])
    case Released => s.(phases := s.phases[i := Finished], counter := s.counter - 1)
    case Finished => s
  }

  /** A step of this call's task i, or a change of the counter by another call. */
  datatype Step = Task(i: nat, ok: bool) | Other(delta: int)

  ghost predicate Enabled(c: Call, s: State, step: Step) {
    step.Task? ==> CanStep(c, s, step.i)
  }

  function After(c: Call, s: State, step: Step): State
    requires c.targets != [] && |s.phases| == |s.results| == |c.users| && (step.Task? ==> step.i < |s.phases|)
  {
    match step
    case Task(i, ok) => Stepped(c, s, i, ok)
    case Other(delta) => s.(counter := s.counter + delta, others := s.others + delta)
  }

  // ---- What every interleaving keeps ----

  ghost predicate Shape(c: Call, s: State) {
    c.targets != [] && |s.phases| == |s.results| == |c.users|
  }

  ghost predicate ResultSound(c: Call, s: State, i: nat)
    requires Shape(c, s) && i < |c.users|
  {
    && (s.results[i].Some? <==> Rank(s.phases[i]) >= 4)
    && (s.results[i].Some? ==> s.results[i].value.user == c.users[i] && s.results[i].value.target == Target(c, i))
    && s.calls[i] == if Rank(s.phases[i]) >= 3 then 1 else 0
  }

  ghost predicate Moved(s: State, i: nat)
    requires i < |s.phases| == |s.results|
  {
    s.phases[i] == Reassigned(true) || (s.results[i].Some? && s.results[i].value.success)
  }

  ghost predicate SameNode(before: map<int, int>, after: map<int, int>, u: int) {
    (u in after <==> u in before) && (u in before ==> after[u] == before[u])
  }

  /** The assignment differs from the original one exactly for the users moved so far. */
  ghost predicate AssignmentSound(c: Call, s: State, original: map<int, int>)
    requires Shape(c, s)
  {
    && (forall u | u !in c.users :: SameNode(original, s.assignment, u))
    && forall i: nat | i < |c.users| ::
         var u := c.users[i];
         if Moved(s, i) then u in s.assignment && s.assignment[u] == Target(c, i)
         else SameNode(original, s.assignment, u)
  }

  ghost predicate Inv(c: Call, s: State, original: map<int, int>) {
    && Shape(c, s)
    && |Holders(s)| <= c.limit
    && s.counter == s.others + |CountedTasks(s)|
    && (forall i: nat | i < |c.users| :: ResultSound(c, s, i))
    && (forall i: nat | i >= |c.users| :: s.calls[i] == 0)
    && AssignmentSound(c, s, original)
  }

  lemma RankedChange(phases: seq<Phase>, i: nat, p: Phase, low: nat, high: nat)
    requires i < |phases|
    ensures |Ranked(phases[i := p], low, high)| == |Ranked(phases, low, high)|
              + (if low <= Rank(p) <= high then 1 else 0) - (if low <= Rank(phases[i]) <= high then 1 else 0)
  {
    hide Rank;
    var a, b := Ranked(phases, low, high), Ranked(phases[i := p], low, high);
    assert a - {i} == b - {i};
    assert |a - {i}| == |a| - if i in a then 1 else 0;
    assert |b - {i}| == |b| - if i in b then 1 else 0;
  }

  lemma InitInv(c: Call, counter: int, assignment: map<int, int>)
    requires c.targets != [] && c.limit >= 0
    ensures Inv(c, Start(c, counter, assignment), assignment)
  {
    var s := Start(c, counter, assignment);
    assert Holders(s) == {} && CountedTasks(s) == {};
  }

  lemma StepKeepsAssignment(c: Call, s: State, i: nat, ok: bool, original: map<int, int>)
    requires Distinct(c.users) && Inv(c, s, original) && CanStep(c, s, i)
    ensures AssignmentSound(c, Stepped(c, s, i, ok), original)
  {
    var t := Stepped(c, s, i, ok);
    assert ResultSound(c, s, i);
    forall j: nat | j < |c.users|
      ensures var u := c.users[j];
              if Moved(t, j) then u in t.assignment && t.assignment[u] == Target(c, j)
              else SameNode(original, t.assignment, u)
    {
      assert j != i ==> c.users[j] != c.users[i];
      assert j != i ==> Moved(t, j) == Moved(s, j);
    }
  }

  lemma StepKeepsResults(c: Call, s: State, i: nat, ok: bool, original: map<int, int>)
    requires Inv(c, s, original) && CanStep(c, s, i)
    ensures forall j: nat | j < |c.users| :: ResultSound(c, Stepped(c, s, i, ok), j)
    ensures forall j: nat | j >= |c.users| :: Stepped(c, s, i, ok).calls[j] == 0
  {
    hide AssignmentSound;
    forall j: nat | j < |c.users| ensures ResultSound(c, Stepped(c, s, i, ok), j) {
      assert ResultSound(c, s, j);
    }
  }

  lemma StepKeepsInv(c: Call, s: State, step: Step, original: map<int, int>)
    requires Distinct(c.users) && Inv(c, s, original) && Enabled(c, s, step)
    ensures Inv(c, After(c, s, step), original)
  {
    match step
    case Other(_) =>
      forall j: nat | j < |c.users| ensures ResultSound(c, After(c, s, step), j) {
        assert ResultSound(c, s, j);
      }
    case Task(i, ok) =>
      hide AssignmentSound;
      var t := Stepped(c, s, i, ok);
      RankedChange(s.phases, i, t.phases[i], 1, 4);
      RankedChange(s.phases, i, t.phases[i], 2, 5);
      StepKeepsAssignment(c, s, i, ok, original);
      StepKeepsResults(c, s, i, ok, original);
  }

  // ---- Progress ----

  /** How many steps the tasks still have to make. */
  ghost function Remaining(phases: seq<Phase>): nat {
    if phases == [] then 0
    else Remaining(phases[..|phases| - 1]) + 6 - Rank(phases[|phases| - 1])
  }

  lemma {:induction false} RemainingDrops(phases: seq<Phase>, i: nat, p: Phase)
    requires i < |phases|
    ensures Remaining(phases[i := p]) == Remaining(phases) + Rank(phases[i]) - Rank(p)
  {
    var last, updated := |phases| - 1, phases[i := p];
    if i < last {
      RemainingDrops(phases[..last], i, p);
      assert updated[..last] == phases[..last][i := p];
    } else {
      assert updated[..last] == phases[..last];
    }
  }

  /** Each step of a task brings the call closer to its end by one. */
  lemma StepsCountDown(c: Call, s: State, i: nat, ok: bool)
    requires Shape(c, s) && CanStep(c, s, i)
    ensures Remaining(Stepped(c, s, i, ok).phases) == Remaining(s.phases) - 1
  {
    RemainingDrops(s.phases, i, Stepped(c, s, i, ok).phases[i]);
  }

  lemma {:induction false} RemainingAtMost(phases: seq<Phase>)
    ensures Remaining(phases) <= 6 * |phases|
    ensures Remaining(phases) == 0 <==> forall i | 0 <= i < |phases| :: phases[i] == Finished
  {
    if phases != [] {
      RemainingAtMost(phases[..|phases| - 1]);
    }
  }

  ghost predicate AllFinished(s: State) {
    forall i | 0 <= i < |s.phases| :: s.phases[i] == Finished
  }

  /** With a limit of at least one, some task can always go on until all are finished. */
  lemma SomeTaskCanStep(c: Call, s: State) returns (i: nat)
    requires c.limit >= 1 && !AllFinished(s)
    ensures CanStep(c, s, i)
  {
    i :| i < |s.phases| && s.phases[i] != Finished;
    if s.phases[i] == Waiting && Holders(s) != {} {
      var j: nat :| j in Holders(s);
      i := j;
    }
  }

  /** Without a slot no task ever starts: a limit of zero hangs the call exactly when there are users. */
  lemma ZeroLimitHangs(c: Call, counter: int, assignment: map<int, int>)
    requires c.limit == 0
    ensures forall i: nat :: !CanStep(c, Start(c, counter, assignment), i)
    ensures AllFinished(Start(c, counter, assignment)) <==> c.users == []
  {
    var s := Start(c, counter, assignment);
    assert c.users != [] ==> s.phases[0] == Waiting;
  }

  // ---- Whole runs ----

  ghost predicate Run(c: Call, states: seq<State>, steps: seq<Step>, counter: int, assignment: map<int, int>) {
    && c.targets != []
    && |states| == |steps| + 1 && states[0] == Start(c, counter, assignment)
    && forall k | 0 <= k < |steps| ::
         Shape(c, states[k]) && Enabled(c, states[k], steps[k]) && states[k + 1] == After(c, states[k], steps[k])
  }

  ghost function TaskSteps(steps: seq<Step>): nat {
    if steps == [] then 0 else TaskSteps(steps[..|steps| - 1]) + if steps[|steps| - 1].Task? then 1 else 0
  }

  /** At every moment of every interleaving: at most `limit` tasks hold a slot, the counter is off its outside value by
      exactly the tasks counted, and each user has been reassigned at most once, to its own target. */
  lemma {:induction false} RunKeepsInv(c: Call, states: seq<State>, steps: seq<Step>, counter: int,
                                       assignment: map<int, int>)
    requires Run(c, states, steps, counter, assignment) && c.limit >= 0 && Distinct(c.users)
    ensures Inv(c, states[|steps|], assignment)
    ensures Remaining(states[|steps|].phases) + TaskSteps(steps) == 6 * |c.users|
    decreases |steps|
  {
    if steps == [] {
      InitInv(c, counter, assignment);
      RemainingAtStart(|c.users|);
      assert states[0].phases == seq(|c.users|, i => Waiting);
    } else {
      var k := |steps| - 1;
      RunKeepsInv(c, states[..k + 1], steps[..k], counter, assignment);
      StepKeepsInv(c, states[k], steps[k], assignment);
      if steps[k].Task? {
        StepsCountDown(c, states[k], steps[k].i, steps[k].ok);
      }
    }
  }

  lemma {:induction false} RemainingAtStart(n: nat)
    ensures Remaining(seq(n, i => Waiting)) == 6 * n
  {
    if n > 0 {
      RemainingAtStart(n - 1);
      assert seq(n, i => Waiting)[..n - 1] == seq(n - 1, i => Waiting);
    }
  }

  ghost predicate Complete(c: Call, s: State, original: map<int, int>) {
    && Shape(c, s)
    && s.counter == s.others
    && (forall i: nat | i < |c.users| :: s.calls[i] == 1)
    && (forall i: nat | i < |c.users| ::
          && s.results[i].Some? && s.results[i].value.user == c.users[i] && s.results[i].value.target == Target(c, i)
          && (if s.results[i].value.success then c.users[i] in s.assignment && s.assignment[c.users[i]] == Target(c, i)
              else SameNode(original, s.assignment, c.users[i])))
    && (forall u | u !in c.users :: SameNode(original, s.assignment, u))
  }

  lemma FinishedIsComplete(c: Call, s: State, original: map<int, int>)
    requires Inv(c, s, original) && AllFinished(s)
    ensures Complete(c, s, original)
  {
    assert CountedTasks(s) == {};
    forall i: nat | i < |c.users|
      ensures s.phases[i] == Finished && ResultSound(c, s, i) && s.calls[i] == 1
      ensures s.results[i].Some? && (Moved(s, i) <==> s.results[i].value.success)
    {
      assert s.phases[i] == Finished && ResultSound(c, s, i);
    }
  }

  /** A run makes at most six steps per user; one in which no task can go on has finished them all, each user handled
      exactly once and the counter back at what other calls make it. */
  lemma EveryRunCompletes(c: Call, states: seq<State>, steps: seq<Step>, counter: int, assignment: map<int, int>)
    requires Run(c, states, steps, counter, assignment) && c.limit >= 1 && Distinct(c.users)
    ensures TaskSteps(steps) <= 6 * |c.users|
    ensures (forall i: nat :: !CanStep(c, states[|steps|], i)) <==> TaskSteps(steps) == 6 * |c.users|
    ensures TaskSteps(steps) == 6 * |c.users| ==> Complete(c, states[|steps|], assignment)
  {
    RunKeepsInv(c, states, steps, counter, assignment);
    var s := states[|steps|];
    RemainingAtMost(s.phases);
    if AllFinished(s) {
      FinishedIsComplete(c, s, assignment);
    } else {
      var i := SomeTaskCanStep(c, s);
      assert CanStep(c, s, i);
    }
  }

  lemma ExtendRun(c: Call, states: seq<State>, steps: seq<Step>, counter: int, assignment: map<int, int>, step: Step)
    returns (moreStates: seq<State>, moreSteps: seq<Step>)
    requires Run(c, states, steps, counter, assignment)
    requires Shape(c, states[|steps|]) && Enabled(c, states[|steps|], step)
    ensures moreStates == states + [After(c, states[|steps|], step)] && moreSteps == steps + [step]
    ensures Run(c, moreStates, moreSteps, counter, assignment)
  {
    moreStates, moreSteps := states + [After(c, states[|steps|], step)], steps + [step];
    forall k | 0 <= k < |moreSteps|
      ensures Shape(c, moreStates[k]) && Enabled(c, moreStates[k], moreSteps[k])
      ensures moreStates[k + 1] == After(c, moreStates[k], moreSteps[k])
    {
      if k < |steps| {
        assert moreStates[k] == states[k] && moreStates[k + 1] == states[k + 1];
      }
    }
  }

  /** The first k tasks have freed their slots but still count; the others have not begun. */
  ghost predicate Lingering(c: Call, s: State, k: nat, counter: int) {
    && Shape(c, s) && k <= |c.users| && s.others == counter && s.counter == counter + k
    && forall i: nat | i < |c.users| :: s.phases[i] == if i < k then Released else Waiting
  }

  /** One task takes a slot, counts itself, works, and frees the slot. */
  lemma OneMoreLingers(c: Call, states: seq<State>, steps: seq<Step>, counter: int, assignment: map<int, int>, k: nat)
    returns (moreStates: seq<State>, moreSteps: seq<Step>)
    requires Run(c, states, steps, counter, assignment) && c.limit >= 1 && k < |c.users|
    requires Lingering(c, states[|steps|], k, counter)
    ensures Run(c, moreStates, moreSteps, counter, assignment)
    ensures Lingering(c, moreStates[|moreSteps|], k + 1, counter)
  {
    assert Holders(states[|steps|]) == {};
    hide Run;
    moreStates, moreSteps := states, steps;
    moreStates, moreSteps := ExtendRun(c, moreStates, moreSteps, counter, assignment, Task(k, true));
    moreStates, moreSteps := ExtendRun(c, moreStates, moreSteps, counter, assignment, Task(k, true));
    moreStates, moreSteps := ExtendRun(c, moreStates, moreSteps, counter, assignment, Task(k, true));
    moreStates, moreSteps := ExtendRun(c, moreStates, moreSteps, counter, assignment, Task(k, true));
    moreStates, moreSteps := ExtendRun(c, moreStates, moreSteps, counter, assignment, Task(k, true));
  }

  lemma {:induction false} CounterReaches(c: Call, counter: int, assignment: map<int, int>, k: nat)
    returns (states: seq<State>, steps: seq<Step>)
    requires c.targets != [] && c.limit >= 1 && k <= |c.users|
    ensures Run(c, states, steps, counter, assignment) && Lingering(c, states[|steps|], k, counter)
  {
    if k == 0 {
      states, steps := [Start(c, counter, assignment)], [];
    } else {
      states, steps := CounterReaches(c, counter, assignment, k - 1);
      states, steps := OneMoreLingers(c, states, steps, counter, assignment, k - 1);
    }
  }

  /** In the last state of the run this call alone makes up more of the counter than its limit. */
  ghost predicate Overshoots(c: Call, states: seq<State>, steps: seq<Step>, counter: int, assignment: map<int, int>) {
    Run(c, states, steps, counter, assignment) && states[|steps|].counter - states[|steps|].others > c.limit
  }

  /** The counter is not bounded by the limit, because a task frees its slot before it uncounts itself: with a limit of
      at least one, some run overshoots it exactly when there are more users than the limit. */
  lemma CounterExceedsLimitExactlyWhen(c: Call, counter: int, assignment: map<int, int>)
    requires c.targets != [] && c.limit >= 1 && Distinct(c.users)
    ensures (exists states, steps :: Overshoots(c, states, steps, counter, assignment)) <==> |c.users| > c.limit
  {
    if |c.users| > c.limit {
      var states, steps := CounterReaches(c, counter, assignment, |c.users|);
      assert Overshoots(c, states, steps, counter, assignment);
    } else {
      forall states, steps ensures !Overshoots(c, states, steps, counter, assignment) {
        if Run(c, states, steps, counter, assignment) {
          RunKeepsInv(c, states, steps, counter, assignment);
          CountedAtMostAll(states[|steps|]);
        }
      }
    }
  }

  lemma CountedAtMostAll(s: State)
    ensures |CountedTasks(s)| <= |s.phases|
  {
    var all := set i: nat | i in Range(|s.phases|);
    assert all == Range(|s.phases|);
    SubsetSize(CountedTasks(s), all);
  }

  // ---- Balance ----

  /** How many of the first n users go to position t of the target list. */
  function Load(n: nat, m: nat, t: nat): nat
    requires m > 0
  {
    if n == 0 then 0 else Load(n - 1, m, t) + if (n - 1) % m == t then 1 else 0
  }

  lemma {:induction false} LoadIs(n: nat, m: nat, t: nat)
    requires t < m
    ensures Load(n, m, t) == n / m + if t < n % m then 1 else 0
  {
    if n > 0 {
      LoadIs(n - 1, m, t);
      DivStep(n - 1, m);
    }
  }

  lemma DivStep(n: nat, m: nat)
    requires m > 0
    ensures (n + 1) / m == n / m + if n % m == m - 1 then 1 else 0
    ensures (n + 1) % m == if n % m == m - 1 then 0 else n % m + 1
  {
    var q, r := n / m, n % m;
    assert n == q * m + r;
    if r == m - 1 {
      assert n + 1 == (q + 1) * m;
      DivModIs(n + 1, m, q + 1, 0);
    } else {
      DivModIs(n + 1, m, q, r + 1);
    }
  }

  /** How many of the first n results name the given target. */
  ghost function ResultsFor(s: State, n: nat, target: int): nat
    requires n <= |s.results|
  {
    if n == 0 then 0
    else ResultsFor(s, n - 1, target) + if s.results[n - 1].Some? && s.results[n - 1].value.target == target then 1 else 0
  }

  lemma {:induction false} ResultsForIsLoad(c: Call, s: State, original: map<int, int>, n: nat, t: nat)
    requires Complete(c, s, original) && Distinct(c.targets) && n <= |c.users| && t < |c.targets|
    ensures ResultsFor(s, n, c.targets[t]) == Load(n, |c.targets|, t)
  {
    if n > 0 {
      ResultsForIsLoad(c, s, original, n - 1, t);
      assert s.results[n - 1].value.target == Target(c, n - 1);
    }
  }

  /** Once a call is complete, any two of its target nodes, if distinct, have received results of numbers that differ by
      at most one. */
  lemma LoadsBalanced(c: Call, s: State, original: map<int, int>, t: nat, u: nat)
    requires Complete(c, s, original) && Distinct(c.targets) && t < |c.targets| && u < |c.targets|
    ensures -1 <= ResultsFor(s, |c.users|, c.targets[t]) - ResultsFor(s, |c.users|, c.targets[u]) <= 1
  {
    ResultsForIsLoad(c, s, original, |c.users|, t);
    ResultsForIsLoad(c, s, original, |c.users|, u);
    LoadIs(|c.users|, |c.targets|, t);
    LoadIs(|c.users|, |c.targets|, u);
  }

  // ---- The manager ----

  datatype Error = FailoverInProgress | NodeNotUnhealthy | NoTargetNodes | RepositoryError

  datatype FailoverEvent = FailoverEvent(node: int, affected: nat, migrated: nat, failed: nat, targets: seq<int>)

  function Successes(outcomes: nat -> bool, n: nat): nat {
    if n == 0 then 0 else Successes(outcomes, n - 1) + if outcomes(n - 1) then 1 else 0
  }

  lemma {:induction false} SuccessesAre(outcomes: nat -> bool, n: nat)
    ensures Successes(outcomes, n) == |set i: nat | i < n && outcomes(i)|
  {
    if n > 0 {
      SuccessesAre(outcomes, n - 1);
      var before, all := set i: nat | i < n - 1 && outcomes(i), set i: nat | i < n && outcomes(i);
      if outcomes(n - 1) {
        assert all == before + {n - 1} && n - 1 !in before;
      } else {
        assert all == before;
      }
    } else {
      assert (set i: nat | i < n && outcomes(i)) == {};
    }
  }

  /** The error of a failover that is not refused for another one under way, if it has one. */
  ghost predicate FailsWith(error: Error, unhealthy: Option<bool>, users: Option<seq<int>>, targets: Option<seq<int>>) {
    match error
    case FailoverInProgress => false
    case NodeNotUnhealthy => unhealthy == Some(false)
    case NoTargetNodes => unhealthy == Some(true) && users.Some? && users.value != [] && targets == Some([])
    case RepositoryError =>
      unhealthy == None || (unhealthy == Some(true) && (users == None || (users.value != [] && targets == None)))
  }

  /** Exactly the users whose reassignment succeeds are moved, each to its own target; nobody else's node changes. */
  ghost predicate MovedAsDecided(before: map<int, int>, after: map<int, int>, users: seq<int>, targets: seq<int>,
                                 outcomes: nat -> bool) {
    && targets != []
    && (forall i: nat | i < |users| ::
          if outcomes(i) then users[i] in after && after[users[i]] == targets[i % |targets|]
          else SameNode(before, after, users[i]))
    && forall u | u !in users :: SameNode(before, after, u)
  }

  /** The successes so far are those `outcomes` decides. */
  ghost predicate Follows(c: Call, s: State, outcomes: nat -> bool) {
    && Shape(c, s)
    && (forall i: nat | i < |c.users| && s.phases[i].Reassigned? :: s.phases[i].success == outcomes(i))
    && (forall i: nat | i < |c.users| && s.results[i].Some? :: s.results[i].value.success == outcomes(i))
  }

  lemma CanStepInRange(c: Call, s: State, i: nat)
    requires CanStep(c, s, i)
    ensures i < |s.phases|
  {
  }

  lemma StepFollows(c: Call, s: State, i: nat, original: map<int, int>, outcomes: nat -> bool)
    requires Distinct(c.users) && Inv(c, s, original) && CanStep(c, s, i) && Follows(c, s, outcomes)
    ensures i < |s.phases| == |s.results| == |c.users| && c.targets != []
    ensures var t := Stepped(c, s, i, outcomes(i));
            Inv(c, t, original) && Follows(c, t, outcomes) && t.others == s.others
                && Remaining(t.phases) < Remaining(s.phases)
  {
    StepKeepsInv(c, s, Task(i, outcomes(i)), original);
    StepsCountDown(c, s, i, outcomes(i));
  }

  lemma FinishedFollows(c: Call, s: State, original: map<int, int>, outcomes: nat -> bool)
    requires Inv(c, s, original) && Follows(c, s, outcomes) && AllFinished(s)
    ensures Complete(c, s, original)
    ensures |s.results| == |c.users|
    ensures forall i: nat | i < |c.users| ::
              s.results[i].Some? && s.results[i].value == MigrationResult(c.users[i], Target(c, i), outcomes(i))
  {
    FinishedIsComplete(c, s, original);
  }

  class FailoverManager {
    const limit: int
    var activeFailovers: set<int>
    var currentMigrations: int
    /** The assignment repository. */
    var assignment: map<int, int>

    constructor (limit: int, assignment: map<int, int>)
      ensures this.limit == limit && this.assignment == assignment && activeFailovers == {} && currentMigrations == 0
    {
      this.limit, this.assignment, activeFailovers, currentMigrations := limit, assignment, {}, 0;
    }

    /** Runs all tasks of one call in an arbitrary interleaving; `outcomes` decides which reassignments succeed. */
    method MigrateUsers(users: seq<int>, targets: seq<int>, outcomes: nat -> bool)
      returns (results: seq<MigrationResult>)
      requires limit >= 1 && targets != [] && Distinct(users)
      modifies this`currentMigrations, this`assignment
      ensures |results| == |users| && currentMigrations == old(currentMigrations)
      ensures forall i | 0 <= i < |users| :: results[i] == MigrationResult(users[i], targets[i % |targets|], outcomes(i))
      ensures MovedAsDecided(old(assignment), assignment, users, targets, outcomes)
    {
      var c := Call(users, targets, limit);
      var s := Start(c, currentMigrations, assignment);
      ghost var original := assignment;
      InitInv(c, currentMigrations, assignment);
      hide Inv, Stepped, Complete, Rank, CanStep;
      while exists i: nat :: i < |s.phases| && s.phases[i] != Finished
        invariant Inv(c, s, original) && s.others == old(currentMigrations) && Follows(c, s, outcomes)
        decreases Remaining(s.phases)
      {
        ghost var ready := SomeTaskCanStep(c, s);
        CanStepInRange(c, s, ready);
        var i: nat :| i < |s.phases| && CanStep(c, s, i);
        StepFollows(c, s, i, original, outcomes);
        s := Stepped(c, s, i, outcomes(i));
      }
      FinishedFollows(c, s, original, outcomes);
      currentMigrations, assignment := s.counter, s.assignment;
      results := seq(|users|, i requires 0 <= i < |users| => s.results[i].value);
    }

    /** Moves the users of an unhealthy node away. `unhealthy`, `users` and `targets` are what the repositories answer,
        None for an error. */
    method TriggerFailover(node: int, unhealthy: Option<bool>, users: Option<seq<int>>, targets: Option<seq<int>>,
                           outcomes: nat -> bool) returns (event: Result<FailoverEvent, Error>)
      requires limit >= 1 && (users.Some? ==> Distinct(users.value))
      modifies this
      ensures currentMigrations == old(currentMigrations) && activeFailovers == old(activeFailovers)
      ensures node in old(activeFailovers) ==> event == Err(FailoverInProgress)
      ensures event.Err? ==> assignment == old(assignment)
      ensures node !in old(activeFailovers) ==>
                (event.Ok? <==> unhealthy == Some(true) && users.Some? &&
                                (users.value == [] || (targets.Some? && targets.value != [])))
      ensures event.Ok? ==> event.value.node == node && event.value.affected == |users.value|
                            && event.value.migrated == Successes(outcomes, |users.value|)
                            && event.value.failed == |users.value| - event.value.migrated
      ensures event.Ok? && users.value != [] ==>
                event.value.targets == targets.value &&
                MovedAsDecided(old(assignment), assignment, users.value, targets.value, outcomes)
      ensures event.Ok? && users.value == [] ==> event.value.targets == [] && assignment == old(assignment)
      ensures event.Ok? ==> event.value.migrated == |set i: nat | i < |users.value| && outcomes(i)|
      ensures node !in old(activeFailovers) && event.Err? ==> FailsWith(event.error, unhealthy, users, targets)
    {
      if node in activeFailovers { return Err(FailoverInProgress); }
      activeFailovers := activeFailovers + {node};
      event := Failover(node, unhealthy, users, targets, outcomes);
      activeFailovers := activeFailovers - {node};
    }

    method Failover(node: int, unhealthy: Option<bool>, users: Option<seq<int>>, targets: Option<seq<int>>,
                    outcomes: nat -> bool) returns (event: Result<FailoverEvent, Error>)
      requires limit >= 1 && (users.Some? ==> Distinct(users.value))
      modifies this`currentMigrations, this`assignment
      ensures currentMigrations == old(currentMigrations)
      ensures event.Err? ==> assignment == old(assignment)
      ensures event.Ok? <==> unhealthy == Some(true) && users.Some? &&
                             (users.value == [] || (targets.Some? && targets.value != []))
      ensures event.Ok? ==> event.value.node == node && event.value.affected == |users.value|
                            && event.value.migrated == Successes(outcomes, |users.value|)
                            && event.value.failed == |users.value| - event.value.migrated
      ensures event.Ok? && users.value != [] ==>
                event.value.targets == targets.value &&
                MovedAsDecided(old(assignment), assignment, users.value, targets.value, outcomes)
      ensures event.Ok? && users.value == [] ==> event.value.targets == [] && assignment == old(assignment)
      ensures event.Ok? ==> event.value.migrated == |set i: nat | i < |users.value| && outcomes(i)|
      ensures event.Err? ==> FailsWith(event.error, unhealthy, users, targets)
    {
      if users.Some? { SuccessesAre(outcomes, |users.value|); }
      if unhealthy.None? { return Err(RepositoryError); }
      if !unhealthy.value { return Err(NodeNotUnhealthy); }
      if users.None? { return Err(RepositoryError); }
      if |users.value| == 0 { return Ok(FailoverEvent(node, 0, 0, 0, [])); }
      if targets.None? { return Err(RepositoryError); }
      if |targets.value| == 0 { return Err(NoTargetNodes); }
      var results := MigrateUsers(users.value, targets.value, outcomes);
      var migrated, failed := 0, 0;
      for i := 0 to |results|
        invariant migrated == Successes(outcomes, i) && migrated + failed == i
      {
        if results[i].success { migrated := migrated + 1; } else { failed := failed + 1; }
      }
      return Ok(FailoverEvent(node, |users.value|, migrated, failed, targets.value));
    }
  }

  // ---- One failover per node: runs of TriggerFailover that overlap in time ----

  /** `active` is the shared table, `running` the failovers under way. */
  datatype Failovers = Failovers(active: set<int>, running: map<nat, int>)

  datatype Turn = Begin(run: nat, node: int) | End(run: nat)

  function Turned(f: Failovers, t: Turn): Failovers {
    match t
    case Begin(run, node) =>
      if node in f.active || run in f.running then f else Failovers(f.active + {node}, f.running[run := node])
    case End(run) =>
      if run in f.running then Failovers(f.active - {f.running[run]}, f.running - {run}) else f
  }

  function Turns(turns: seq<Turn>): Failovers {
    if turns == [] then Failovers({}, map[]) else Turned(Turns(turns[..|turns| - 1]), turns[|turns| - 1])
  }

  ghost predicate Runs(f: Failovers, run: nat, node: int) {
    run in f.running && f.running[run] == node
  }

  /** No node ever has two failovers at once, and the table lists exactly the nodes that have one. */
  lemma {:induction false} OneFailoverPerNode(turns: seq<Turn>)
    ensures forall a, b, node | Runs(Turns(turns), a, node) && Runs(Turns(turns), b, node) :: a == b
    ensures forall node :: node in Turns(turns).active <==> exists run :: Runs(Turns(turns), run, node)
  {
    if turns != [] {
      var f, t := Turns(turns[..|turns| - 1]), turns[|turns| - 1];
      OneFailoverPerNode(turns[..|turns| - 1]);
      var g := Turned(f, t);
      forall run, node | Runs(g, run, node) ensures Runs(f, run, node) || (t == Begin(run, node) && node !in f.active) {
      }
      forall node ensures node in g.active <==> exists run :: Runs(g, run, node) {
        if node in g.active {
          if node in f.active {
            var run :| Runs(f, run, node);
            assert Runs(g, run, node);
          } else {
            assert Runs(g, t.run, node);
          }
        }
        if run :| Runs(g, run, node) {
          assert t.End? && t.run in f.running ==> Runs(f, t.run, f.running[t.run]);
        }
      }
    }
  }

  // ---- Explicit slots: compare-and-swap on the counter ----

  /** `others` are the migrations that count themselves by a plain increment, `seen` what a thread loaded last and not yet
      used, `holding` the threads that took a slot. */
  datatype Slots = Slots(counter: int, others: nat, seen: map<nat, int>, holding: set<nat>)

  datatype SlotStep = LoadCounter(thread: nat) | Swap(thread: nat) | Release(thread: nat) | Increment | Decrement

  /** A thread that loaded a counter below the limit tries to swap it; a swap succeeds only if nobody changed it. */
  function SlotAfter(limit: int, s: Slots, step: SlotStep): Slots {
    match step
    case LoadCounter(t) =>
      if t in s.holding then s
      else if s.counter >= limit then s.(seen := s.seen - {t}) else s.(seen := s.seen[t := s.counter])
    case Swap(t) =>
      if t !in s.seen || t in s.holding then s
      else if s.counter == s.seen[t] then s.(counter := s.counter + 1, seen := s.seen - {t}, holding := s.holding + {t})
      else s.(seen := s.seen - {t})
    case Release(t) => if t in s.holding then s.(counter := s.counter - 1, holding := s.holding - {t}) else s
    case Increment => s.(counter := s.counter + 1, others := s.others + 1)
    case Decrement => if s.others > 0 then s.(counter := s.counter - 1, others := s.others - 1) else s
  }

  function SlotRun(limit: int, steps: seq<SlotStep>): Slots {
    if steps == [] then Slots(0, 0, map[], {}) else SlotAfter(limit, SlotRun(limit, steps[..|steps| - 1]), steps[|steps| - 1])
  }

  /** However loads, swaps and plain increments interleave, the counter is the plainly counted migrations and the slots
      taken, and no more slots are taken than a limit that is not negative. */
  lemma {:induction false} SlotsNeverExceedLimit(limit: int, steps: seq<SlotStep>)
    requires limit >= 0
    ensures var s := SlotRun(limit, steps);
            && s.counter == s.others + |s.holding| && |s.holding| <= limit
            && forall t | t in s.seen :: s.seen[t] < limit
  {
    if steps != [] {
      SlotsNeverExceedLimit(limit, steps[..|steps| - 1]);
    }
  }

  /** A thread left to itself takes a slot exactly when the counter is below the limit, and giving it back restores the
      counter. */
  lemma AcquiresExactlyWhen(limit: int, steps: seq<SlotStep>, t: nat)
    requires t !in SlotRun(limit, steps).holding
    ensures var s, after := SlotRun(limit, steps), SlotRun(limit, steps + [LoadCounter(t)] + [Swap(t)]);
            && (t in after.holding <==> s.counter < limit) && after.others == s.others
            && after.holding == (if s.counter < limit then s.holding + {t} else s.holding)
            && after.counter == (if s.counter < limit then s.counter + 1 else s.counter)
            && var back := SlotRun(limit, steps + [LoadCounter(t)] + [Swap(t)] + [Release(t)]);
               back.counter == s.counter && back.holding == s.holding && back.others == s.others
  {
    SlotNext(limit, steps, LoadCounter(t));
    SlotNext(limit, steps + [LoadCounter(t)], Swap(t));
    SlotNext(limit, steps + [LoadCounter(t)] + [Swap(t)], Release(t));
    hide SlotRun, SlotAfter;
    TakenAndReleased(limit, SlotRun(limit, steps), t);
  }

  lemma TakenAndReleased(limit: int, s: Slots, t: nat)
    requires t !in s.holding
    ensures var after := SlotAfter(limit, SlotAfter(limit, s, LoadCounter(t)), Swap(t));
            && after.others == s.others
            && after.holding == (if s.counter < limit then s.holding + {t} else s.holding)
            && after.counter == (if s.counter < limit then s.counter + 1 else s.counter)
            && var back := SlotAfter(limit, after, Release(t));
               back.counter == s.counter && back.holding == s.holding && back.others == s.others
  {
    if s.counter < limit {
      assert s.holding + {t} - {t} == s.holding;
    }
  }

  /** Every migration that counts itself plainly can also uncount itself. */
  lemma PlainlyCounted(limit: int, steps: seq<SlotStep>)
    ensures var s, more := SlotRun(limit, steps), SlotRun(limit, steps + [Increment]);
            more == s.(counter := s.counter + 1, others := s.others + 1)
    ensures SlotRun(limit, steps + [Increment] + [Decrement]) == SlotRun(limit, steps)
  {
    SlotNext(limit, steps, Increment);
    SlotNext(limit, steps + [Increment], Decrement);
  }

  lemma SlotNext(limit: int, steps: seq<SlotStep>, step: SlotStep)
    ensures SlotRun(limit, steps + [step]) == SlotAfter(limit, SlotRun(limit, steps), step)
  {
    assert (steps + [step])[..|steps|] == steps;
  }

  /** Every plain increment comes while the counter is below the limit. */
  ghost predicate IncrementsBelowLimit(limit: int, steps: seq<SlotStep>) {
    forall k: nat | k < |steps| && steps[k].Increment? :: SlotRun(limit, steps[..k]).counter < limit
  }

  /** The counter itself stays within the limit at every moment of a run exactly when no plain increment comes at a
      counter that has reached it: acquiring a slot never takes it over. */
  lemma {:induction false} CounterWithinLimitExactlyWhen(limit: int, steps: seq<SlotStep>)
    requires limit >= 0
    ensures (forall k: nat | k <= |steps| :: SlotRun(limit, steps[..k]).counter <= limit) <==> IncrementsBelowLimit(limit, steps)
  {
    forall k: nat | k < |steps| ensures SlotRun(limit, steps[..k + 1]) == SlotAfter(limit, SlotRun(limit, steps[..k]), steps[k]) {
      assert steps[..k + 1][..k] == steps[..k];
    }
    if IncrementsBelowLimit(limit, steps) {
      forall k: nat | k <= |steps| ensures SlotRun(limit, steps[..k]).counter <= limit {
        StaysWithin(limit, steps, k);
      }
    } else {
      var k: nat :| k < |steps| && steps[k].Increment? && SlotRun(limit, steps[..k]).counter >= limit;
      assert SlotRun(limit, steps[..k + 1]).counter > limit;
    }
  }

  lemma {:induction false} StaysWithin(limit: int, steps: seq<SlotStep>, k: nat)
    requires limit >= 0 && k <= |steps| && IncrementsBelowLimit(limit, steps)
    ensures SlotRun(limit, steps[..k]).counter <= limit
  {
    if k > 0 {
      StaysWithin(limit, steps, k - 1);
      SlotsNeverExceedLimit(limit, steps[..k - 1]);
      assert steps[..k][..k - 1] == steps[..k - 1];
    }
  }
}
