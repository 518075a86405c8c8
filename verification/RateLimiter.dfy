/** The login rate limiter and its background cleanup (internal/auth/rate_limiter.go). Times and durations are
    integers; the clock is a parameter of every operation. */
module RateLimiting {
  import opened Common

  type Address = string

  datatype Config = Config(maxAttempts: int, window: int, blockDuration: int)

  const DEFAULT_MAX_ATTEMPTS := 5
  const MINUTE := 60_000_000_000

  /** NewRateLimiter replaces settings that are not positive. */
  function Normalized(c: Config): Config {
    var window := if c.window <= 0 then MINUTE else c.window;
    Config(if c.maxAttempts <= 0 then DEFAULT_MAX_ATTEMPTS else c.maxAttempts,
           window,
           if c.blockDuration <= 0 then window else c.blockDuration)
  }

  predicate Positive(c: Config) {
    c.maxAttempts > 0 && c.window > 0 && c.blockDuration > 0
  }

  datatype Attempt = Attempt(attempts: nat, first: int, last: int, blocked: bool, blockedUntil: int)

  type Attempts = map<Address, Attempt>

  // ---- What each operation does to the table of attempts ----

  predicate Expired(c: Config, a: Attempt, now: int) {
    (now - a.first > c.window && !a.blocked) || (a.blocked && now > a.blockedUntil)
  }

  function Cleaned(c: Config, m: Attempts, now: int): Attempts {
    map ip | ip in m && !Expired(c, m[ip], now) :: m[ip]
  }

  function Failed(c: Config, a: Attempt, now: int): Attempt {
    var current := if now - a.first > c.window then a.(attempts := 0, first := now, blocked := false) else a;
    var counted := current.(attempts := current.attempts + 1, last := now);
    if counted.attempts >= c.maxAttempts then counted.(blocked := true, blockedUntil := now + c.blockDuration) else counted
  }

  function NewAttempt(now: int): Attempt {
    Attempt(0, now, 0, false, 0)
  }

  function Recorded(c: Config, m: Attempts, ip: Address, success: bool, now: int): Attempts {
    if success then m - {ip}
    else m[ip := Failed(c, if ip in m then m[ip] else NewAttempt(now), now)]
  }

  // ---- What callers can observe ----

  predicate Admits(c: Config, a: Attempt, now: int) {
    if a.blocked then now >= a.blockedUntil
    else now - a.first > c.window || a.attempts < c.maxAttempts
  }

  predicate Allowed(c: Config, m: Attempts, ip: Address, now: int) {
    ip in m ==> Admits(c, m[ip], now)
  }

  predicate Blocked(m: Attempts, ip: Address, now: int) {
    ip in m && m[ip].blocked && now < m[ip].blockedUntil
  }

  function AttemptCount(c: Config, m: Attempts, ip: Address, now: int): nat {
    if ip !in m || now - m[ip].first > c.window then 0 else m[ip].attempts
  }

  class RateLimiter {
    const config: Config
    var attempts: Attempts

    constructor (config: Config)
      ensures this.config == Normalized(config) && Positive(this.config)
      ensures this.config.maxAttempts == if config.maxAttempts > 0 then config.maxAttempts else 5
      ensures this.config.window == if config.window > 0 then config.window else 60_000_000_000
      ensures this.config.blockDuration == if config.blockDuration > 0 then config.blockDuration else this.config.window
      ensures attempts == map[]
    {
      this.config := Normalized(config);
      attempts := map[];
    }

    method CleanupExpired(now: int)
      modifies this
      ensures attempts == Cleaned(config, old(attempts), now)
    {
      var todo := attempts.Keys;
      while todo != {}
        invariant todo <= attempts.Keys <= old(attempts).Keys
        invariant forall ip | ip in attempts :: attempts[ip] == old(attempts)[ip]
        invariant forall ip | ip in todo :: ip in attempts
        invariant forall ip | ip in old(attempts) && ip !in todo :: ip in attempts <==>
            !Expired(config, old(attempts)[ip], now)
        decreases |todo|
      {
        var ip :| ip in todo;
        todo := todo - {ip};
        var attempt := attempts[ip];
        if now - attempt.first > config.window && !attempt.blocked {
          attempts := attempts - {ip};
        } else if attempt.blocked && now > attempt.blockedUntil {
          attempts := attempts - {ip};
        }
      }
    }

    method CheckRateLimit(ip: Address, now: int) returns (allowed: bool)
      ensures allowed == Allowed(config, attempts, ip, now)
    {
      if ip !in attempts { return true; }
      var attempt := attempts[ip];
      if attempt.blocked { return !(now < attempt.blockedUntil); }
      if now - attempt.first > config.window { return true; }
      if attempt.attempts >= config.maxAttempts { return false; }
      return true;
    }

    method RecordLoginAttempt(ip: Address, success: bool, now: int)
      modifies this
      ensures attempts == Recorded(config, old(attempts), ip, success, now)
    {
      var attempt;
      if ip in attempts {
        attempt := attempts[ip];
      } else {
        attempt := NewAttempt(now);
        attempts := attempts[ip := attempt];
      }
      if success {
        attempts := attempts - {ip};
        return;
      }
      if now - attempt.first > config.window {
        attempt := attempt.(attempts := 0, first := now, blocked := false);
      }
      attempt := attempt.(attempts := attempt.attempts + 1, last := now);
      if attempt.attempts >= config.maxAttempts {
        attempt := attempt.(blocked := true, blockedUntil := now + config.blockDuration);
      }
      attempts := attempts[ip := attempt];
    }

    method GetAttemptCount(ip: Address, now: int) returns (count: nat)
      ensures count == AttemptCount(config, attempts, ip, now)
    {
      if ip !in attempts { return 0; }
      if now - attempts[ip].first > config.window { return 0; }
      return attempts[ip].attempts;
    }

    method IsBlocked(ip: Address, now: int) returns (blocked: bool)
      ensures blocked == Blocked(attempts, ip, now)
    {
      if ip !in attempts || !attempts[ip].blocked { return false; }
      return now < attempts[ip].blockedUntil;
    }
  }

  // ---- Runs, with and without the background cleanup ----

  datatype Action = Record(ip: Address, success: bool) | Cleanup | Reset(ip: Address) | ResetAll

  datatype Event = Event(at: int, action: Action)

  ghost predicate TimeOrdered(events: seq<Event>) {
    forall i, j | 0 <= i < j < |events| :: events[i].at <= events[j].at
  }

  function Act(c: Config, m: Attempts, e: Event, cleaning: bool): Attempts {
    match e.action
    case Record(ip, success) => Recorded(c, m, ip, success, e.at)
    case Cleanup => if cleaning then Cleaned(c, m, e.at) else m
    case Reset(ip) => m - {ip}
    case ResetAll => map[]
  }

  function Replay(c: Config, events: seq<Event>, cleaning: bool): Attempts {
    if events == [] then map[]
    else Act(c, Replay(c, events[..|events| - 1], cleaning), events[|events| - 1], cleaning)
  }

  /** At any later moment every question has the same answer as if no cleanup had ever run. */
  ghost predicate SameAnswers(c: Config, events: seq<Event>) {
    var cleaned, kept := Replay(c, events, true), Replay(c, events, false);
    forall now: int, ip: Address | events == [] || events[|events| - 1].at <= now :: SameAnswer(c, cleaned, kept, ip, now)
  }

  ghost predicate SameAnswer(c: Config, cleaned: Attempts, kept: Attempts, ip: Address, now: int) {
    && Allowed(c, cleaned, ip, now) == Allowed(c, kept, ip, now)
    && Blocked(cleaned, ip, now) == Blocked(kept, ip, now)
    && AttemptCount(c, cleaned, ip, now) == AttemptCount(c, kept, ip, now)
  }

  // ---- The bisimulation ----

  ghost predicate WellTimed(c: Config, a: Attempt, now: int) {
    a.first <= now && (a.blocked ==> a.blockedUntil >= a.first + c.blockDuration)
  }

  /** The entry no longer influences anything. */
  ghost predicate Gone(c: Config, a: Attempt, now: int) {
    now - a.first > c.window && (a.blocked ==> now > a.blockedUntil)
  }

  ghost predicate Linked(c: Config, cleaned: Attempts, kept: Attempts, ip: Address, now: int) {
    && (ip in cleaned ==>
          && ip in kept && WellTimed(c, cleaned[ip], now)
          && cleaned[ip].attempts == kept[ip].attempts && cleaned[ip].first == kept[ip].first
          && cleaned[ip].blocked == kept[ip].blocked
          && (kept[ip].blocked ==> cleaned[ip].blockedUntil == kept[ip].blockedUntil))
    && (ip in kept ==> WellTimed(c, kept[ip], now))
    && (ip in kept && ip !in cleaned ==> Gone(c, kept[ip], now))
  }

  lemma LinkedAnswers(c: Config, cleaned: Attempts, kept: Attempts, ip: Address, now: int)
    requires Linked(c, cleaned, kept, ip, now)
    ensures SameAnswer(c, cleaned, kept, ip, now)
  {
  }

  lemma ActKeepsLink(c: Config, cleaned: Attempts, kept: Attempts, ip: Address, before: int, e: Event)
    requires Positive(c) && c.blockDuration >= c.window && before <= e.at
    requires Linked(c, cleaned, kept, ip, before)
    ensures Linked(c, Act(c, cleaned, e, true), Act(c, kept, e, false), ip, e.at)
  {
  }

  lemma {:induction false} ReplayLinked(c: Config, events: seq<Event>, ip: Address, now: int)
    requires Positive(c) && c.blockDuration >= c.window && TimeOrdered(events)
    requires events == [] || events[|events| - 1].at <= now
    ensures Linked(c, Replay(c, events, true), Replay(c, events, false), ip, now)
  {
    hide Act;
    if events != [] {
      var e, rest := events[|events| - 1], events[..|events| - 1];
      ReplayLinked(c, rest, ip, e.at);
      ActKeepsLink(c, Replay(c, rest, true), Replay(c, rest, false), ip, e.at, e);
    }
  }

  /** A run that tells the two apart when a block ends before the window does. */
  function ManyFailures(ip: Address, n: nat): seq<Event> {
    seq(n, i => Event(0, Record(ip, false)))
  }

  lemma {:induction false} AfterManyFailures(c: Config, ip: Address, n: nat, cleaning: bool)
    requires Positive(c) && n <= c.maxAttempts
    ensures var m := Replay(c, ManyFailures(ip, n), cleaning);
            if n == 0 then m == map[]
            else ip in m && m[ip].attempts == n && m[ip].first == 0 && m[ip].blocked == (n == c.maxAttempts) &&
                 (m[ip].blocked ==> m[ip].blockedUntil == c.blockDuration)
  {
    if n > 0 {
      AfterManyFailures(c, ip, n - 1, cleaning);
      assert ManyFailures(ip, n)[..n - 1] == ManyFailures(ip, n - 1);
    }
  }

  lemma ShortBlockIsObservable(c: Config)
    requires Positive(c) && c.blockDuration < c.window
    ensures exists events :: TimeOrdered(events) && !SameAnswers(c, events)
  {
    var ip, now := "198.51.100.7", c.blockDuration + 1;
    var failures := ManyFailures(ip, c.maxAttempts);
    var events := failures + [Event(now, Cleanup)];
    assert events[..|events| - 1] == failures;
    AfterManyFailures(c, ip, c.maxAttempts, true);
    AfterManyFailures(c, ip, c.maxAttempts, false);
    assert AttemptCount(c, Replay(c, events, true), ip, now) == 0;
    assert AttemptCount(c, Replay(c, events, false), ip, now) == c.maxAttempts;
    assert !SameAnswer(c, Replay(c, events, true), Replay(c, events, false), ip, now);
    assert TimeOrdered(events) && !SameAnswers(c, events);
  }

  /** Cleanup goes unnoticed in every run exactly when a block lasts at least as long as the window. */
  lemma CleanupUnobservable(c: Config)
    requires Positive(c)
    ensures (forall events: seq<Event> | TimeOrdered(events) :: SameAnswers(c, events)) <==> c.blockDuration >= c.window
  {
    if c.blockDuration < c.window {
      ShortBlockIsObservable(c);
    } else {
      forall events: seq<Event> | TimeOrdered(events) ensures SameAnswers(c, events) {
        forall now: int, ip: Address | events == [] || events[|events| - 1].at <= now
          ensures SameAnswer(c, Replay(c, events, true), Replay(c, events, false), ip, now)
        {
          ReplayLinked(c, events, ip, now);
          LinkedAnswers(c, Replay(c, events, true), Replay(c, events, false), ip, now);
        }
      }
    }
  }

  ghost predicate BlockedWhenUsedUp(c: Config, m: Attempts) {
    forall ip | ip in m :: m[ip].blocked <==> m[ip].attempts >= c.maxAttempts
  }

  lemma ActKeepsUsedUp(c: Config, m: Attempts, e: Event, cleaning: bool)
    requires Positive(c) && BlockedWhenUsedUp(c, m)
    ensures BlockedWhenUsedUp(c, Act(c, m, e, cleaning))
  {
    forall ip | ip in Act(c, m, e, cleaning)
      ensures var a := Act(c, m, e, cleaning)[ip]; a.blocked <==> a.attempts >= c.maxAttempts
    {
      assert ip in m ==> (m[ip].blocked <==> m[ip].attempts >= c.maxAttempts);
    }
  }

  /** In every run an entry is blocked exactly when it has used up its attempts, so an unblocked address is never
      refused: only a block that has not ended refuses. */
  lemma {:induction false} OnlyBlocksRefuse(c: Config, events: seq<Event>, cleaning: bool)
    requires Positive(c)
    ensures BlockedWhenUsedUp(c, Replay(c, events, cleaning))
    ensures forall ip: Address, now: int :: Allowed(c, Replay(c, events, cleaning), ip, now) <==>
        !Blocked(Replay(c, events, cleaning), ip, now)
  {
    if events != [] {
      var rest := events[..|events| - 1];
      OnlyBlocksRefuse(c, rest, cleaning);
      ActKeepsUsedUp(c, Replay(c, rest, cleaning), events[|events| - 1], cleaning);
    }
  }

  // ---- What the numbers count ----

  /** The times of an address's failures since its last success or reset. */
  function FailureTimes(events: seq<Event>, ip: Address): seq<int> {
    if events == [] then []
    else
      var earlier, e := FailureTimes(events[..|events| - 1], ip), events[|events| - 1];
      match e.action
      case Record(at, success) => if at != ip then earlier else if success then [] else earlier + [e.at]
      case Cleanup => earlier
      case Reset(at) => if at == ip then [] else earlier
      case ResetAll => []
  }

  /** The failures of the window that the last one falls in: a failure more than a window after the first one of the
      current window opens the next. */
  function CurrentWindow(c: Config, times: seq<int>): seq<int> {
    if times == [] then []
    else
      var earlier, t := CurrentWindow(c, times[..|times| - 1]), times[|times| - 1];
      if earlier == [] || t - earlier[0] > c.window then [t] else earlier + [t]
  }

  ghost predicate Ascending(times: seq<int>) {
    forall i, j | 0 <= i < j < |times| :: times[i] <= times[j]
  }

  /** The current window is the end of the history, spans no more than a window's length, and was opened because the
      failure before it belongs to a window that began too long ago. */
  lemma {:induction false} WindowIsRecent(c: Config, times: seq<int>)
    requires Positive(c) && times != []
    ensures var w := CurrentWindow(c, times);
            && 1 <= |w| <= |times| && w == times[|times| - |w|..]
            && (forall t | t in w :: t - w[0] <= c.window)
            && (|w| < |times| ==> var earlier := CurrentWindow(c, times[..|times| - |w|]); earlier != [] && w[0] - earlier[0] > c.window)
  {
    var init, t := times[..|times| - 1], times[|times| - 1];
    if init != [] {
      WindowIsRecent(c, init);
      var earlier := CurrentWindow(c, init);
      if t - earlier[0] <= c.window {
        var w := earlier + [t];
        assert times[..|times| - |w|] == init[..|init| - |earlier|];
      } else {
        assert times[..|times| - 1] == init;
      }
    }
  }

  /** The entry of an address after failures at the given times. */
  function EntryAfter(c: Config, times: seq<int>): Attempt
    requires times != []
  {
    var init, t := times[..|times| - 1], times[|times| - 1];
    Failed(c, if init == [] then NewAttempt(t) else EntryAfter(c, init), t)
  }

  lemma {:induction false} EntryCounts(c: Config, times: seq<int>)
    requires Positive(c) && times != []
    ensures var e, w := EntryAfter(c, times), CurrentWindow(c, times);
            && w != [] && e.attempts == |w| && e.first == w[0]
            && (e.blocked <==> |w| >= c.maxAttempts)
            && (e.blocked ==> e.blockedUntil == times[|times| - 1] + c.blockDuration)
  {
    if |times| > 1 {
      EntryCounts(c, times[..|times| - 1]);
    }
  }

  /** The table holds, for exactly the addresses with failures since their last success or reset, what these make. */
  lemma {:induction false} ReplayedEntry(c: Config, events: seq<Event>, ip: Address)
    ensures var m, times := Replay(c, events, false), FailureTimes(events, ip);
            (ip in m <==> times != []) && (ip in m ==> m[ip] == EntryAfter(c, times))
  {
    if events != [] {
      var init, e := events[..|events| - 1], events[|events| - 1];
      ReplayedEntry(c, init, ip);
      if e.action == Record(ip, false) {
        var times := FailureTimes(events, ip);
        assert times[..|times| - 1] == FailureTimes(init, ip);
      }
    }
  }

  /** The attempt count is the number of failures in the current window since the last success or reset, and zero once
      the window has ended; it never counts a failure more than a window ago. Where cleanup goes unnoticed, this holds
      with cleanup running, too. */
  lemma AttemptsAreFailuresOfWindow(c: Config, events: seq<Event>, ip: Address, now: int, cleaning: bool)
    requires Positive(c) && (cleaning ==> c.blockDuration >= c.window) && TimeOrdered(events)
    requires events == [] || events[|events| - 1].at <= now
    ensures var w := CurrentWindow(c, FailureTimes(events, ip));
            && AttemptCount(c, Replay(c, events, cleaning), ip, now) ==
                 (if w == [] || now - w[0] > c.window then 0 else |w|)
            && (w != [] && now - w[0] <= c.window ==> forall t | t in w :: now - t <= c.window)
  {
    var times := FailureTimes(events, ip);
    ReplayedEntry(c, events, ip);
    FailuresAscend(events, ip);
    if times != [] {
      EntryCounts(c, times);
      WindowIsRecent(c, times);
      var w := CurrentWindow(c, times);
      forall t | t in w ensures w[0] <= t {
        var i :| 0 <= i < |w| && w[i] == t;
        assert w[0] == times[|times| - |w|] && w[i] == times[|times| - |w| + i];
      }
    }
    if cleaning {
      CleanupUnobservable(c);
      assert SameAnswers(c, events);
      assert SameAnswer(c, Replay(c, events, true), Replay(c, events, false), ip, now);
    }
  }

  lemma {:induction false} FailuresAscend(events: seq<Event>, ip: Address)
    requires TimeOrdered(events)
    ensures Ascending(FailureTimes(events, ip))
    ensures forall t | t in FailureTimes(events, ip) :: events != [] && t <= events[|events| - 1].at
  {
    if events != [] {
      var init := events[..|events| - 1];
      FailuresAscend(init, ip);
      assert init != [] ==> init[|init| - 1].at <= events[|events| - 1].at;
      var earlier := FailureTimes(init, ip);
      forall i | 0 <= i < |earlier| ensures earlier[i] <= events[|events| - 1].at {
        assert earlier[i] in earlier;
      }
    }
  }

  // ---- Windows in a history of failures ----

  /** Failure k opens a window. */
  ghost predicate Opens(c: Config, times: seq<int>, k: nat)
    requires k < |times|
  {
    |CurrentWindow(c, times[..k + 1])| == 1
  }

  /** The place of failure k in its window. */
  lemma PlaceInWindow(c: Config, times: seq<int>, k: nat)
    requires Positive(c) && 0 < k < |times| && !Opens(c, times, k)
    ensures var before, w := CurrentWindow(c, times[..k]), CurrentWindow(c, times[..k + 1]);
            before != [] && w == before + [times[k]] && w[0] == before[0] && times[k] - w[0] <= c.window
  {
    assert times[..k + 1][..k] == times[..k];
  }

  /** Failures i to j - 1 all belong to the window of failure i. */
  ghost predicate OneWindow(c: Config, times: seq<int>, i: nat, j: nat)
    requires i < j <= |times|
  {
    forall k | i < k < j :: !Opens(c, times, k)
  }

  lemma {:induction false} PlacesGrow(c: Config, times: seq<int>, i: nat, k: nat)
    requires Positive(c) && i <= k < |times| && OneWindow(c, times, i, k + 1)
    ensures |CurrentWindow(c, times[..k + 1])| >= k - i + 1
  {
    if k > i {
      PlacesGrow(c, times, i, k - 1);
      PlaceInWindow(c, times, k);
    } else {
      WindowIsRecent(c, times[..k + 1]);
    }
  }

  /** Windows that open one after the other open more than a window apart. */
  lemma {:induction false} OpeningsApart(c: Config, times: seq<int>, o: nat, k: nat)
    requires Positive(c) && o < k < |times| && Opens(c, times, o) && Opens(c, times, k) && OneWindow(c, times, o, k)
    ensures times[k] - times[o] > c.window
  {
    WindowStartsAt(c, times, o, k);
    assert times[..k + 1][..k] == times[..k];
  }

  lemma OpeningIsFirst(c: Config, times: seq<int>, o: nat)
    requires Positive(c) && o < |times| && Opens(c, times, o)
    ensures CurrentWindow(c, times[..o + 1]) == [times[o]]
  {
    assert times[..o + 1][o] == times[o];
  }

  lemma {:induction false} WindowStartsAt(c: Config, times: seq<int>, o: nat, k: nat)
    requires Positive(c) && o < k <= |times| && Opens(c, times, o) && OneWindow(c, times, o, k)
    ensures CurrentWindow(c, times[..k]) != [] && CurrentWindow(c, times[..k])[0] == times[o]
  {
    if k > o + 1 {
      WindowStartsAt(c, times, o, k - 1);
      PlaceInWindow(c, times, k - 1);
    } else {
      OpeningIsFirst(c, times, o);
    }
  }

  lemma {:induction false} FirstOpening(c: Config, times: seq<int>, i: nat, j: nat) returns (o: nat)
    requires i < j <= |times| && !OneWindow(c, times, i, j)
    ensures i < o < j && Opens(c, times, o) && OneWindow(c, times, i, o)
  {
    if OneWindow(c, times, i, j - 1) {
      o := j - 1;
    } else {
      o := FirstOpening(c, times, i, j - 1);
    }
  }
}
