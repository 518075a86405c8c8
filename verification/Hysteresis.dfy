/** The two-threshold health state machine of a node (internal/node/health_checker.go, handleCheckResult). */
module Hysteresis {

  datatype Status = Online | Offline | Unhealthy

  /** `saved` says whether the repository would accept a status update made during this check. */
  datatype Check = Check(ok: bool, saved: bool)

  datatype Thresholds = Thresholds(unhealthy: int, healthy: int)

  datatype Health = Health(status: Status, failures: nat, successes: nat)

  /** One check of a node whose status was loaded before probing: `loaded` decides, `h.status` is what is stored now. */
  function NextFrom(t: Thresholds, h: Health, loaded: Status, c: Check): Health {
    if c.ok then
      var recovered := (loaded == Unhealthy && h.successes + 1 >= t.healthy) || loaded == Offline;
      Health(if recovered && c.saved then Online else h.status, 0, h.successes + 1)
    else
      var degraded := loaded == Online && h.failures + 1 >= t.unhealthy;
      Health(if degraded && c.saved then Unhealthy else h.status, h.failures + 1, 0)
  }

  /** With nobody else writing the status, what was loaded is what is stored. */
  function Next(t: Thresholds, h: Health, c: Check): Health {
    NextFrom(t, h, h.status, c)
  }

  function AtLeastOne(n: int): nat {
    if n < 1 then 1 else n
  }

  class HealthChecker {
    const thresholds: Thresholds
    var consecutiveFailures: map<int, nat>
    var consecutiveSuccesses: map<int, nat>
    /** The status column of the node repository. */
    var status: map<int, Status>

    constructor (thresholds: Thresholds, status: map<int, Status>)
      ensures this.thresholds == thresholds && this.status == status
      ensures forall node | node in status :: HealthOf(node) == Health(status[node], 0, 0)
    {
      this.thresholds := thresholds;
      consecutiveFailures, consecutiveSuccesses := map[], map[];
      this.status := status;
    }

    /** A counter that was never written reads as zero. */
    function Count(m: map<int, nat>, node: int): nat {
      if node in m then m[node] else 0
    }

    function HealthOf(node: int): Health
      requires node in status
      reads this
    {
      Health(status[node], Count(consecutiveFailures, node), Count(consecutiveSuccesses, node))
    }

    /** `current` is the status in the node as loaded before the check. */
    method HandleCheckResult(node: int, current: Status, c: Check)
      requires node in status
      modifies this
      ensures status.Keys == old(status.Keys)
      ensures HealthOf(node) == NextFrom(thresholds, old(HealthOf(node)), current, c)
      ensures forall other | other in status && other != node :: HealthOf(other) == old(HealthOf(other))
    {
      if c.ok {
        consecutiveFailures := consecutiveFailures[node := 0];
        consecutiveSuccesses := consecutiveSuccesses[node := Count(consecutiveSuccesses, node) + 1];
        if current == Unhealthy && consecutiveSuccesses[node] >= thresholds.healthy {
          Transition(node, Online, c.saved);
        } else if current == Offline {
          Transition(node, Online, c.saved);
        }
      } else {
        consecutiveSuccesses := consecutiveSuccesses[node := 0];
        consecutiveFailures := consecutiveFailures[node := Count(consecutiveFailures, node) + 1];
        if current == Online && consecutiveFailures[node] >= thresholds.unhealthy {
          Transition(node, Unhealthy, c.saved);
        }
      }
    }

    method Transition(node: int, to: Status, saved: bool)
      modifies this`status
      ensures status == if saved then old(status)[node := to] else old(status)
    {
      if saved {
        status := status[node := to];
      }
    }
  }

  // ---- Whole runs of one node ----

  /** `healths[i]` is the state before check i; the run starts with fresh counters and any status. */
  ghost predicate Run(t: Thresholds, checks: seq<Check>, healths: seq<Health>) {
    && |healths| == |checks| + 1
    && healths[0].failures == 0 && healths[0].successes == 0
    && forall i | 0 <= i < |checks| :: healths[i + 1] == Next(t, healths[i], checks[i])
  }

  /** Exactly the last k of the first n checks form the current run of results equal to `ok`. */
  ghost predicate CurrentStreak(checks: seq<Check>, n: nat, ok: bool, k: nat)
    requires n <= |checks|
  {
    && k <= n
    && (forall i | n - k <= i < n :: checks[i].ok == ok)
    && (k < n ==> checks[n - k - 1].ok != ok)
  }

  /** The counters are the lengths of the current failing and succeeding streaks, one of which is empty. */
  lemma {:induction false} CountersAreStreaks(t: Thresholds, checks: seq<Check>, healths: seq<Health>, n: nat)
    requires Run(t, checks, healths) && n <= |checks|
    ensures CurrentStreak(checks, n, false, healths[n].failures)
    ensures CurrentStreak(checks, n, true, healths[n].successes)
    ensures n > 0 ==> (healths[n].failures == 0 <==> healths[n].successes > 0)
  {
    if n > 0 {
      CountersAreStreaks(t, checks, healths, n - 1);
      assert healths[n - 1 + 1] == Next(t, healths[n - 1], checks[n - 1]);
    }
  }

  ghost predicate Moves(healths: seq<Health>, i: nat, from: Status, to: Status)
    requires i + 1 < |healths|
  {
    healths[i].status == from && healths[i + 1].status == to
  }

  /** The last k of the first n checks all had the result `ok`. */
  ghost predicate LastAll(checks: seq<Check>, n: nat, ok: bool, k: nat)
    requires n <= |checks|
  {
    k <= n && forall i | n - k <= i < n :: checks[i].ok == ok
  }

  lemma StreakReaches(checks: seq<Check>, n: nat, ok: bool, streak: nat, k: nat)
    requires n <= |checks| && CurrentStreak(checks, n, ok, streak)
    ensures LastAll(checks, n, ok, k) <==> k <= streak
  {
  }

  /** Check i degrades the node exactly when it was Online, the update is accepted, and the last U checks, this one
      included, all failed. */
  lemma DegradesExactlyWhen(t: Thresholds, checks: seq<Check>, healths: seq<Health>, i: nat)
    requires Run(t, checks, healths) && i < |checks|
    ensures Moves(healths, i, Online, Unhealthy) <==>
              healths[i].status == Online && checks[i].saved && LastAll(checks, i + 1, false, AtLeastOne(t.unhealthy))
    ensures healths[i].status == Online && healths[i + 1].status != Online ==> Moves(healths, i, Online, Unhealthy)
  {
    CountersAreStreaks(t, checks, healths, i + 1);
    StreakReaches(checks, i + 1, false, healths[i + 1].failures, AtLeastOne(t.unhealthy));
    assert healths[i + 1] == Next(t, healths[i], checks[i]);
  }

  /** Check i heals the node exactly when it was Unhealthy, the update is accepted, and the last H checks, this one
      included, all succeeded. */
  lemma RecoversExactlyWhen(t: Thresholds, checks: seq<Check>, healths: seq<Health>, i: nat)
    requires Run(t, checks, healths) && i < |checks|
    ensures Moves(healths, i, Unhealthy, Online) <==>
              healths[i].status == Unhealthy && checks[i].saved && LastAll(checks, i + 1, true, AtLeastOne(t.healthy))
    ensures healths[i].status == Unhealthy && healths[i + 1].status != Unhealthy ==>
        Moves(healths, i, Unhealthy, Online)
  {
    CountersAreStreaks(t, checks, healths, i + 1);
    StreakReaches(checks, i + 1, true, healths[i + 1].successes, AtLeastOne(t.healthy));
    assert healths[i + 1] == Next(t, healths[i], checks[i]);
  }

  /** A node is Offline exactly if it began so and no check has yet both succeeded and been recorded: the first such check
      brings it online, and nothing takes it offline again. */
  lemma {:induction false} OfflineUntilFirstSuccess(t: Thresholds, checks: seq<Check>, healths: seq<Health>, n: nat)
    requires Run(t, checks, healths) && n <= |checks|
    ensures healths[n].status == Offline <==>
              healths[0].status == Offline && forall k | 0 <= k < n :: !(checks[k].ok && checks[k].saved)
  {
    if n > 0 {
      OfflineUntilFirstSuccess(t, checks, healths, n - 1);
      assert healths[n - 1 + 1] == Next(t, healths[n - 1], checks[n - 1]);
    }
  }

  /** While every update is accepted no threshold is ever overshot: an Online node has failed fewer than U times
      in a row, an Unhealthy one has succeeded fewer than H times in a row, an Offline one never. */
  lemma {:induction false} NoOvershoot(t: Thresholds, checks: seq<Check>, healths: seq<Health>, n: nat)
    requires Run(t, checks, healths) && n <= |checks| && forall i | 0 <= i < n :: checks[i].saved
    ensures healths[n].status == Online ==> healths[n].failures < AtLeastOne(t.unhealthy)
    ensures healths[n].status == Unhealthy ==> healths[n].successes < AtLeastOne(t.healthy)
    ensures healths[n].status == Offline ==> healths[n].successes == 0
  {
    if n > 0 {
      NoOvershoot(t, checks, healths, n - 1);
      assert healths[n - 1 + 1] == Next(t, healths[n - 1], checks[n - 1]);
    }
  }

  /** Between an Unhealthy and a later Online state the node heals somewhere. */
  lemma {:induction false} HealsBetween(t: Thresholds, checks: seq<Check>, healths: seq<Health>, i: nat, j: nat)
    returns (k: nat)
    requires Run(t, checks, healths) && i < j <= |checks|
    requires healths[i].status == Unhealthy && healths[j].status == Online
    ensures i <= k < j && Moves(healths, k, Unhealthy, Online)
    decreases j - i
  {
    assert healths[i + 1] == Next(t, healths[i], checks[i]);
    if healths[i + 1].status == Online {
      k := i;
    } else {
      k := HealsBetween(t, checks, healths, i + 1, j);
    }
  }

  /** Two degradations of one node lie at least U + H checks apart, whichever updates were refused. */
  lemma DegradationsFarApart(t: Thresholds, checks: seq<Check>, healths: seq<Health>, i: nat, j: nat)
    requires Run(t, checks, healths) && i < j < |checks|
    requires Moves(healths, i, Online, Unhealthy) && Moves(healths, j, Online, Unhealthy)
    ensures j - i >= AtLeastOne(t.unhealthy) + AtLeastOne(t.healthy)
  {
    var k := HealsBetween(t, checks, healths, i + 1, j);
    RecoversExactlyWhen(t, checks, healths, k);
    DegradesExactlyWhen(t, checks, healths, i);
    DegradesExactlyWhen(t, checks, healths, j);
    // The H successes end at k and start after the failure at i; the U failures end at j and start after k.
    assert !checks[i].ok && checks[k].ok;
  }
}
