/** Login requests and the rate limiter: a request is checked when it comes and recorded once its password has turned out
    wrong, so requests can overlap (internal/api/handlers/auth.go, Login). */
module LoginRequests {
  import opened Common
  import opened RateLimiting

  /** What happens to the entry of one address between two successes. */
  datatype Event = Check(at: int) | Fail(at: int)

  ghost predicate InOrder(events: seq<Event>) {
    forall i, j | 0 <= i < j < |events| :: events[i].at <= events[j].at
  }

  /** The times of the recorded failures. */
  function Failures(events: seq<Event>): seq<int> {
    if events == [] then []
    else
      var last := events[|events| - 1];
      Failures(events[..|events| - 1]) + if last.Fail? then [last.at] else []
  }

  /** A check at `now` lets the request through. */
  predicate LetsThrough(c: Config, times: seq<int>, now: int) {
    times == [] || Admits(c, EntryAfter(c, times), now)
  }

  predicate Passes(c: Config, events: seq<Event>, k: nat)
    requires k < |events|
  {
    events[k].Check? && LetsThrough(c, Failures(events[..k]), events[k].at)
  }

  /** How many requests the first k events let through. */
  function Passed(c: Config, events: seq<Event>, k: nat): nat
    requires k <= |events|
  {
    if k == 0 then 0 else Passed(c, events, k - 1) + if Passes(c, events, k - 1) then 1 else 0
  }

  function Recorded(events: seq<Event>, k: nat): nat
    requires k <= |events|
  {
    |Failures(events[..k])|
  }

  /** Requests let through and not yet recorded. */
  function InFlight(c: Config, events: seq<Event>, k: nat): int
    requires k <= |events|
  {
    Passed(c, events, k) - Recorded(events, k)
  }

  /** Only requests that were let through are recorded, and never more than `m` of them are under way at once. */
  ghost predicate Overlapping(c: Config, events: seq<Event>, m: nat) {
    forall k: nat | k <= |events| :: 0 <= InFlight(c, events, k) <= m
  }

  // ---- Histories of failures ----

  lemma RecordedStep(events: seq<Event>, k: nat)
    requires k < |events|
    ensures Failures(events[..k + 1]) == Failures(events[..k]) + if events[k].Fail? then [events[k].at] else []
  {
    assert events[..k + 1][..k] == events[..k];
  }

  lemma {:induction false} FailuresGrow(events: seq<Event>, i: nat, k: nat)
    requires i <= k <= |events|
    ensures Recorded(events, i) <= Recorded(events, k)
    ensures Failures(events[..i]) == Failures(events[..k])[..Recorded(events, i)]
  {
    if i < k {
      FailuresGrow(events, i, k - 1);
      RecordedStep(events, k - 1);
    }
  }

  /** The event that recorded failure t. */
  lemma {:induction false} RecordedBy(events: seq<Event>, t: nat, k: nat) returns (e: nat)
    requires k <= |events| && t < Recorded(events, k)
    ensures e < k && events[e].Fail? && Recorded(events, e) == t && events[e].at == Failures(events[..k])[t]
  {
    RecordedStep(events, k - 1);
    if t < Recorded(events, k - 1) {
      e := RecordedBy(events, t, k - 1);
    } else {
      e := k - 1;
    }
  }

  /** Failures recorded from event i on are no earlier than it, and no later than event k. */
  lemma RecordedWithin(events: seq<Event>, i: nat, k: nat, t: nat)
    requires InOrder(events) && i <= k < |events| && Recorded(events, i) <= t < Recorded(events, k)
    ensures events[i].at <= Failures(events[..k])[t] <= events[k].at
  {
    var e := RecordedBy(events, t, k);
    if e < i {
      RecordedStep(events, e);
      FailuresGrow(events, e + 1, i);
    }
  }

  // ---- What a check that lets a request through says ----

  /** If the last failure is less than a window ago, the window it belongs to is not full. */
  lemma RecentFailureLeavesRoom(c: Config, times: seq<int>, now: int)
    requires Positive(c) && c.blockDuration >= c.window && times != [] && LetsThrough(c, times, now)
    requires now - times[|times| - 1] < c.window
    ensures |CurrentWindow(c, times)| < c.maxAttempts
  {
    EntryCounts(c, times);
  }

  /** A pass among the events from i up to j, unless nothing passes there; the last one is given. */
  lemma {:induction false} LastPass(c: Config, events: seq<Event>, i: nat, j: nat) returns (k: nat)
    requires i <= j <= |events| && Passed(c, events, i) < Passed(c, events, j)
    ensures i <= k < j && Passes(c, events, k) && Passed(c, events, j) == Passed(c, events, k) + 1
  {
    if Passes(c, events, j - 1) {
      k := j - 1;
    } else {
      k := LastPass(c, events, i, j - 1);
    }
  }

  lemma {:induction false} PassedGrows(c: Config, events: seq<Event>, i: nat, j: nat)
    requires i <= j <= |events|
    ensures Passed(c, events, i) <= Passed(c, events, j)
  {
    if i < j { PassedGrows(c, events, i, j - 1); }
  }

  /** When the failures recorded from event i on, up to a pass at event k, all belong to one window, they leave room in it. */
  lemma OneWindowLeavesRoom(c: Config, events: seq<Event>, i: nat, k: nat, a: nat)
    requires Positive(c) && c.blockDuration >= c.window && InOrder(events) && i <= k < |events| && Passes(c, events, k)
    requires events[k].at - events[i].at < c.window
    requires Recorded(events, i) <= a < Recorded(events, k)
    requires OneWindow(c, Failures(events[..k]), a, Recorded(events, k))
    ensures |CurrentWindow(c, Failures(events[..k]))| < c.maxAttempts
    ensures Recorded(events, k) - a <= c.maxAttempts - 1
  {
    var times := Failures(events[..k]);
    RecordedWithin(events, i, k, |times| - 1);
    RecentFailureLeavesRoom(c, times, events[k].at);
    PlacesGrow(c, times, a, |times| - 1);
    assert times[..|times|] == times;
  }

  /** When an interval shorter than a window sees the next window open at failure o, the window before began earlier than
      the interval: failure a, the first in the interval, is not its first. */
  lemma EarlierWindow(c: Config, times: seq<int>, a: nat, o: nat)
    requires Positive(c) && a < o < |times| && Opens(c, times, o) && OneWindow(c, times, a, o)
    requires times[o] - times[a] < c.window
    ensures !Opens(c, times, a) && a > 0 && c.window > 1
  {
    if Opens(c, times, a) {
      OpeningsApart(c, times, a, o);
    }
    assert times[..1][..0] == [];
    assert |CurrentWindow(c, times[..1])| == 1;
    StartOfWindow(c, times, a, o);
  }

  /** Failures of one window have its start in common, and none of them is more than a window later. */
  lemma {:induction false} StartOfWindow(c: Config, times: seq<int>, a: nat, o: nat)
    requires Positive(c) && 0 < a < o < |times| && Opens(c, times, o) && OneWindow(c, times, a, o) && !Opens(c, times, a)
    ensures times[o] - times[a] >= 1
  {
    var first := CurrentWindow(c, times[..a])[0];
    PlaceInWindow(c, times, a);
    SharedStart(c, times, a, o);
    assert times[..o + 1][..o] == times[..o];
  }

  lemma {:induction false} SharedStart(c: Config, times: seq<int>, a: nat, k: nat)
    requires Positive(c) && 0 < a < k <= |times| && OneWindow(c, times, a, k) && !Opens(c, times, a)
    ensures CurrentWindow(c, times[..a]) != [] && CurrentWindow(c, times[..k]) != []
    ensures CurrentWindow(c, times[..k])[0] == CurrentWindow(c, times[..a])[0]
    ensures |CurrentWindow(c, times[..k])| >= k - a + 1
  {
    PlaceInWindow(c, times, k - 1);
    if k - 1 > a {
      SharedStart(c, times, a, k - 1);
    }
  }

  /** Before the next window opens, the passes find room in a window that has a failure from before the interval. */
  lemma EarlierWindowLeavesRoom(c: Config, events: seq<Event>, i: nat, k: nat, times: seq<int>, o: nat)
    requires Positive(c) && c.blockDuration >= c.window && c.maxAttempts >= 2 && InOrder(events)
    requires i <= k < |events| && Passes(c, events, k) && events[k].at - events[i].at < c.window
    requires 0 < Recorded(events, i) < o < |times| && Failures(events[..k]) <= times && Recorded(events, k) <= o
    requires !Opens(c, times, Recorded(events, i)) && OneWindow(c, times, Recorded(events, i), o)
    ensures Recorded(events, k) - Recorded(events, i) <= c.maxAttempts - 2
  {
    var a, r := Recorded(events, i), Recorded(events, k);
    FailuresGrow(events, i, k);
    if a < r {
      assert Failures(events[..k]) == times[..r];
      SharedStart(c, times, a, r);
      RecordedWithin(events, i, k, r - 1);
      RecentFailureLeavesRoom(c, times[..r], events[k].at);
    }
  }

  // ---- The bound ----

  /** At most m requests under way at once: how many get through in any interval shorter than a window. The second value
      is for an interval in which one window ends and the next begins. */
  function Bound(c: Config, m: nat): int {
    if c.window == 1 then c.maxAttempts + m - 1 else Max(c.maxAttempts + m - 1, 2 * c.maxAttempts + 2 * m - 4)
  }

  function Max(a: int, b: int): int {
    if a >= b then a else b
  }

  lemma PassedInAnyInterval(c: Config, events: seq<Event>, m: nat, i: nat, j: nat)
    requires Positive(c) && c.blockDuration >= c.window && InOrder(events) && Overlapping(c, events, m)
    requires i < j <= |events| && events[j - 1].at - events[i].at < c.window
    ensures Passed(c, events, j) - Passed(c, events, i) <= Bound(c, m)
  {
    hide Passes, Failures, Overlapping, Positive, InOrder;
    Positives(c);
    PassedGrows(c, events, i, j);
    if Passed(c, events, i) < Passed(c, events, j) {
      var k := LastPass(c, events, i, j);
      var times, a, b := Failures(events[..k]), Recorded(events, i), Recorded(events, k);
      PassIsNotRecorded(c, events, k);
      AtOnce(c, events, m, i);
      AtOnce(c, events, m, k + 1);
      FailuresGrow(events, i, k);
      OrderedAt(events, i, k, j);
      if a < b {
        if OneWindow(c, times, a, b) {
          OneWindowLeavesRoom(c, events, i, k, a);
        } else {
          PassedInTwoWindows(c, events, m, i, k);
        }
      }
    }
  }

  lemma Positives(c: Config)
    requires Positive(c)
    ensures c.maxAttempts >= 1 && c.window >= 1
  {
  }

  lemma OrderedAt(events: seq<Event>, i: nat, k: nat, j: nat)
    requires InOrder(events) && i <= k < j <= |events|
    ensures events[i].at <= events[k].at <= events[j - 1].at
  {
  }

  lemma AtOnce(c: Config, events: seq<Event>, m: nat, k: nat)
    requires Overlapping(c, events, m) && k <= |events|
    ensures 0 <= InFlight(c, events, k) <= m
  {
  }

  lemma PassIsNotRecorded(c: Config, events: seq<Event>, k: nat)
    requires k < |events| && Passes(c, events, k)
    ensures Recorded(events, k + 1) == Recorded(events, k) && Passed(c, events, k + 1) == Passed(c, events, k) + 1
  {
    RecordedStep(events, k);
  }

  /** The interval from event i to a pass at event k sees one window end and the next begin. */
  lemma PassedInTwoWindows(c: Config, events: seq<Event>, m: nat, i: nat, k: nat)
    requires Positive(c) && c.blockDuration >= c.window && InOrder(events) && Overlapping(c, events, m)
    requires i <= k < |events| && Passes(c, events, k) && events[k].at - events[i].at < c.window
    requires Recorded(events, i) < Recorded(events, k)
    requires !OneWindow(c, Failures(events[..k]), Recorded(events, i), Recorded(events, k))
    ensures Passed(c, events, k + 1) - Passed(c, events, i) <= Bound(c, m) && c.window > 1
  {
    hide Passes, Failures, Overlapping, Opens, OneWindow, InOrder;
    var times, a, b := Failures(events[..k]), Recorded(events, i), Recorded(events, k);
    var o := FirstOpening(c, times, a, b);
    RecordedWithin(events, i, k, a);
    RecordedWithin(events, i, k, o);
    EarlierWindow(c, times, a, o);
    OneOpening(c, events, i, k, o);
    OneWindowLeavesRoom(c, events, i, k, o);
    WindowStartsAt(c, times, o, b);
    assert times[..b] == times;
    assert c.maxAttempts >= 2;
    hide CurrentWindow;
    FailuresBeforeOpening(c, events, m, i, k, o);
    AtOnce(c, events, m, i);
    AtOnce(c, events, m, k + 1);
    PassIsNotRecorded(c, events, k);
  }

  /** The failures of the earlier window: requests under way when the interval began, or let through while that window
      had room. The one that opens the next window is among them, too. */
  lemma FailuresBeforeOpening(c: Config, events: seq<Event>, m: nat, i: nat, k: nat, o: nat)
    requires Positive(c) && c.blockDuration >= c.window && c.maxAttempts >= 2 && InOrder(events)
    requires Overlapping(c, events, m) && i <= k < |events| && events[k].at - events[i].at < c.window
    requires 0 < Recorded(events, i) < o < Recorded(events, k)
    requires !Opens(c, Failures(events[..k]), Recorded(events, i))
    requires OneWindow(c, Failures(events[..k]), Recorded(events, i), o)
    ensures o - Recorded(events, i) <= Max(InFlight(c, events, i) - 1, c.maxAttempts + m - 3)
  {
    hide Passes, Failures, Overlapping, Opens, OneWindow, InOrder, CurrentWindow;
    var e := RecordedBy(events, o, k);
    OpeningIsInside(events, i, k, e);
    FailIsNoPass(c, events, e);
    AtOnce(c, events, m, e + 1);
    PassedGrows(c, events, i, e);
    if Passed(c, events, i) < Passed(c, events, e) {
      var k1 := LastPass(c, events, i, e);
      FailuresGrow(events, k1, e);
      FailuresGrow(events, k1, k);
      OrderedAt(events, i, k1, k + 1);
      OrderedAt(events, k1, k, k + 1);
      EarlierWindowLeavesRoom(c, events, i, k1, Failures(events[..k]), o);
      PassIsNotRecorded(c, events, k1);
      AtOnce(c, events, m, k1 + 1);
    }
  }

  lemma FailIsNoPass(c: Config, events: seq<Event>, e: nat)
    requires e < |events| && events[e].Fail?
    ensures Passed(c, events, e + 1) == Passed(c, events, e) && Recorded(events, e + 1) == Recorded(events, e) + 1
  {
    RecordedStep(events, e);
  }

  lemma OpeningIsInside(events: seq<Event>, i: nat, k: nat, e: nat)
    requires i <= k <= |events| && e < k && events[e].Fail? && Recorded(events, i) < Recorded(events, e)
    ensures i <= e
  {
    if e < i {
      FailuresGrow(events, e, i);
    }
  }

  /** Windows open more than a window apart, so no second one opens in the interval. */
  lemma OneOpening(c: Config, events: seq<Event>, i: nat, k: nat, o: nat)
    requires Positive(c) && InOrder(events) && i <= k < |events| && events[k].at - events[i].at < c.window
    requires Recorded(events, i) <= o < Recorded(events, k) && Opens(c, Failures(events[..k]), o)
    ensures OneWindow(c, Failures(events[..k]), o, Recorded(events, k))
  {
    var times, b := Failures(events[..k]), Recorded(events, k);
    if !OneWindow(c, times, o, b) {
      var p := FirstOpening(c, times, o, b);
      OpeningsApart(c, times, o, p);
      RecordedWithin(events, i, k, o);
      RecordedWithin(events, i, k, p);
    }
  }

  // ---- The bound is reached ----

  /** Requests one after the other, each recorded before the next one comes. */
  function OneByOne(times: seq<int>): seq<Event> {
    if times == [] then []
    else
      var t := times[|times| - 1];
      OneByOne(times[..|times| - 1]) + [Check(t), Fail(t)]
  }

  ghost predicate AllGetThrough(c: Config, times: seq<int>) {
    forall k | 0 <= k < |times| :: LetsThrough(c, times[..k], times[k])
  }

  lemma {:induction false} PassedByPrefix(c: Config, events: seq<Event>, more: seq<Event>, k: nat)
    requires k <= |events|
    ensures Passed(c, events + more, k) == Passed(c, events, k)
    ensures Recorded(events + more, k) == Recorded(events, k)
  {
    assert (events + more)[..k] == events[..k];
    if k > 0 {
      PassedByPrefix(c, events, more, k - 1);
      assert (events + more)[..k - 1] == events[..k - 1];
    }
  }

  lemma OneMorePasses(c: Config, before: seq<Event>, t: int)
    requires LetsThrough(c, Failures(before), t)
    ensures var n, events := |before|, before + [Check(t), Fail(t)];
            && Failures(events) == Failures(before) + [t] && Recorded(events, n) == |Failures(before)|
            && Passed(c, events, n + 1) == Passed(c, before, n) + 1 == Passed(c, events, n + 2)
            && Recorded(events, n + 1) == Recorded(events, n) && Recorded(events, n + 2) == Recorded(events, n) + 1
  {
    hide LetsThrough;
    var n, events := |before|, before + [Check(t), Fail(t)];
    PassedByPrefix(c, before, [Check(t), Fail(t)], n);
    assert events[..n] == before && before[..n] == before && events[..n + 2] == events;
    RecordedStep(events, n);
    RecordedStep(events, n + 1);
    assert Passes(c, events, n);
    FailIsNoPass(c, events, n + 1);
  }

  lemma {:induction false} OneByOnePasses(c: Config, times: seq<int>)
    requires AllGetThrough(c, times)
    ensures var events := OneByOne(times);
            && |events| == 2 * |times| && Failures(events) == times && Passed(c, events, |events|) == |times|
            && Overlapping(c, events, 1)
  {
    hide LetsThrough, Failures, Passed;
    if times != [] {
      var n := |times| - 1;
      var init, t, events := times[..n], times[n], OneByOne(times);
      forall k | 0 <= k < n ensures LetsThrough(c, init[..k], init[k]) {
        assert init[..k] == times[..k];
      }
      OneByOnePasses(c, init);
      var before := OneByOne(init);
      assert before[..2 * n] == before;
      OneMorePasses(c, before, t);
      forall k: nat | k <= |events| ensures 0 <= InFlight(c, events, k) <= 1 {
        if k <= 2 * n {
          PassedByPrefix(c, before, [Check(t), Fail(t)], k);
          assert 0 <= InFlight(c, before, k) <= 1;
        }
      }
    } else {
      NothingPassed(c);
    }
  }

  lemma NothingPassed(c: Config)
    ensures Failures([]) == [] && Overlapping(c, [], 1) && Passed(c, [], 0) == 0
  {
  }

  /** One failure opens a window, all but two of the allowed ones come at its end, and a full window follows. */
  function AcrossTwoWindows(c: Config): seq<int>
    requires c.maxAttempts >= 2
  {
    [0] + seq(c.maxAttempts - 2, _ => c.window) + seq(c.maxAttempts, _ => c.window + 1)
  }

  lemma {:induction false} WindowAcross(c: Config, k: nat)
    requires Positive(c) && c.maxAttempts >= 2 && 1 <= k <= 2 * c.maxAttempts - 1
    ensures var w := CurrentWindow(c, AcrossTwoWindows(c)[..k]);
            && |w| == (if k < c.maxAttempts then k else k - (c.maxAttempts - 1))
            && w[0] == if k < c.maxAttempts then 0 else c.window + 1
  {
    var times := AcrossTwoWindows(c);
    assert times[..k][..k - 1] == times[..k - 1] && times[..k][k - 1] == times[k - 1];
    if k > 1 {
      WindowAcross(c, k - 1);
    }
  }

  lemma AcrossGetsThrough(c: Config)
    requires Positive(c) && c.maxAttempts >= 2
    ensures AllGetThrough(c, AcrossTwoWindows(c))
  {
    var times := AcrossTwoWindows(c);
    forall k | 0 <= k < |times| ensures LetsThrough(c, times[..k], times[k]) {
      if k > 0 {
        WindowAcross(c, k);
        EntryCounts(c, times[..k]);
      }
    }
  }

  lemma {:induction false} OneByOneOrdered(times: seq<int>)
    requires Ascending(times)
    ensures |OneByOne(times)| == 2 * |times| && InOrder(OneByOne(times))
    ensures forall k | 0 <= k < |OneByOne(times)| ::
              OneByOne(times)[k] == if k % 2 == 0 then Check(times[k / 2]) else Fail(times[k / 2])
  {
    if times != [] {
      OneByOneOrdered(times[..|times| - 1]);
    }
  }

  /** Requests one at a time reach the bound, twice the limit less two, with any limit from two up and any longer window. */
  lemma BoundIsReached(c: Config)
    requires Positive(c) && c.maxAttempts >= 2 && c.window >= 2
    ensures var events := OneByOne(AcrossTwoWindows(c));
            && InOrder(events) && Overlapping(c, events, 1) && 2 < |events|
            && events[|events| - 1].at - events[2].at < c.window
            && Passed(c, events, |events|) - Passed(c, events, 2) == Bound(c, 1) == 2 * c.maxAttempts - 2
  {
    hide *;
    AcrossGetsThrough(c);
    AcrossEnds(c);
    OneByOneSpan(c, AcrossTwoWindows(c));
  }

  lemma OneByOneSpan(c: Config, times: seq<int>)
    requires AllGetThrough(c, times) && Ascending(times) && |times| >= 2
    ensures var events := OneByOne(times);
            && InOrder(events) && Overlapping(c, events, 1) && |events| == 2 * |times|
            && events[|events| - 1].at - events[2].at == times[|times| - 1] - times[1]
            && Passed(c, events, |events|) - Passed(c, events, 2) == |times| - 1
  {
    hide *;
    OneByOnePasses(c, times);
    OneByOneOrdered(times);
    FirstPasses(c, times);
  }

  lemma AcrossEnds(c: Config)
    requires Positive(c) && c.maxAttempts >= 2 && c.window >= 2
    ensures var times := AcrossTwoWindows(c);
            && |times| == 2 * c.maxAttempts - 1 && Ascending(times) && times[|times| - 1] - times[1] < c.window
            && Bound(c, 1) == 2 * c.maxAttempts - 2
  {
  }

  lemma FirstPasses(c: Config, times: seq<int>)
    requires times != [] && |OneByOne(times)| == 2 * |times| && OneByOne(times)[0].Check? && OneByOne(times)[1].Fail?
    ensures Passed(c, OneByOne(times), 2) == 1
  {
    var events := OneByOne(times);
    assert events[..0] == [];
    assert Passes(c, events, 0);
    assert Passed(c, events, 1) == 1;
    FailIsNoPass(c, events, 1);
  }

  /** Never more than the limit gets through in an interval shorter than a window. */
  ghost predicate LimitHolds(c: Config, events: seq<Event>) {
    forall i: nat, j: nat | i < j <= |events| && events[j - 1].at - events[i].at < c.window ::
      Passed(c, events, j) - Passed(c, events, i) <= c.maxAttempts
  }

  /** For requests one at a time the limit itself holds in every interval shorter than a window exactly when it is at most
      two, or when the window is one tick of the clock. */
  lemma LimitHoldsExactlyWhen(c: Config)
    requires Positive(c) && c.blockDuration >= c.window
    ensures (forall events: seq<Event> | InOrder(events) && Overlapping(c, events, 1) :: LimitHolds(c, events)) <==>
            c.maxAttempts <= 2 || c.window == 1
  {
    hide Passed, Overlapping, InOrder;
    if c.maxAttempts <= 2 || c.window == 1 {
      forall events: seq<Event> | InOrder(events) && Overlapping(c, events, 1) ensures LimitHolds(c, events) {
        forall i: nat, j: nat | i < j <= |events| && events[j - 1].at - events[i].at < c.window
          ensures Passed(c, events, j) - Passed(c, events, i) <= c.maxAttempts
        {
          PassedInAnyInterval(c, events, 1, i, j);
        }
      }
    } else {
      BoundIsReached(c);
      assert !LimitHolds(c, OneByOne(AcrossTwoWindows(c)));
    }
  }

  // ---- Overlapping requests ----

  function AllAtOnce(n: nat): seq<Event> {
    seq(n, _ => Check(0)) + seq(n, _ => Fail(0))
  }

  /** Requests that are all checked before the first of them is recorded all get through, whatever the limit. */
  lemma AllAtOncePass(c: Config, n: nat)
    ensures InOrder(AllAtOnce(n)) && Overlapping(c, AllAtOnce(n), n) && Passed(c, AllAtOnce(n), 2 * n) == n
  {
    var events := AllAtOnce(n);
    forall k: nat | k <= 2 * n
      ensures Passed(c, events, k) == Min(k, n) && Recorded(events, k) == if k <= n then 0 else k - n
    {
      AtOnceUpTo(c, n, k);
    }
  }

  lemma {:induction false} AtOnceUpTo(c: Config, n: nat, k: nat)
    requires k <= 2 * n
    ensures Passed(c, AllAtOnce(n), k) == Min(k, n)
    ensures Recorded(AllAtOnce(n), k) == if k <= n then 0 else k - n
  {
    if k > 0 {
      AtOnceUpTo(c, n, k - 1);
      RecordedStep(AllAtOnce(n), k - 1);
    }
  }
}
