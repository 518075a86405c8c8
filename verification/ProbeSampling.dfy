/** The rotating sample of proxies probed on each health check (internal/node/health_checker.go, selectProxySample). */
module ProbeSampling {
  import opened Common
  import opened Sorting

  datatype Proxy = Proxy(id: int, port: int)

  predicate ById(a: Proxy, b: Proxy) {
    a.id < b.id
  }

  ghost predicate DistinctIds(s: seq<Proxy>) {
    forall i, j | 0 <= i < j < |s| :: s[i].id != s[j].id
  }

  /** The proxies that can be probed: not nil, with a positive port. */
  function Probeable(proxies: seq<Option<Proxy>>): seq<Proxy> {
    if proxies == [] then []
    else
      var p := proxies[|proxies| - 1];
      Probeable(proxies[..|proxies| - 1]) + (if p.Some? && p.value.port > 0 then [p.value] else [])
  }

  function FailedOf(valid: seq<Proxy>, failed: set<int>): (r: seq<Proxy>)
    ensures |r| <= |valid|
  {
    if valid == [] then []
    else
      var last := valid[|valid| - 1];
      FailedOf(valid[..|valid| - 1], failed) + (if last.id in failed then [last] else [])
  }

  // ---- One sample ----

  /** A position on the circle of n proxies. */
  function Wrap(position: nat, n: nat): (r: nat)
    requires n > 0
    ensures r < n
  {
    position % n
  }

  /** `valid[(cursor + t) % n]` for the first `moved` values of t: what the cursor moves past. */
  ghost predicate CursorPasses(valid: seq<Proxy>, cursor: nat, moved: nat, sample: seq<Proxy>)
    requires valid != []
  {
    forall t | 0 <= t < moved :: Passed(valid, cursor, t) in sample
  }

  ghost function Passed(valid: seq<Proxy>, cursor: nat, t: nat): Proxy
    requires valid != []
  {
    valid[Wrap(cursor + t, |valid|)]
  }

  function CursorAfter(cursor: nat, moved: nat, n: nat): nat
    requires n > 0
  {
    if moved == 0 then cursor else Wrap(cursor + moved, n)
  }

  /** What one call returns: the failed proxies first, then the proxies the cursor passes. */
  ghost predicate IsSample(valid: seq<Proxy>, failed: set<int>, cursor: nat, moved: nat, sample: seq<Proxy>)
    requires valid != []
  {
    var bad := FailedOf(valid, failed);
    && |sample| == Min(3, |valid|) && Distinct(sample) && (forall p | p in sample :: p in valid)
    && sample[..Min(3, |bad|)] == bad[..Min(3, |bad|)]
    && moved <= |valid| && CursorPasses(valid, cursor, moved, sample)
    && (|bad| < 3 <==> moved >= 1)
    && (bad == [] ==> moved == Min(3, |valid|))
  }

  method SelectProxySample(proxies: seq<Option<Proxy>>, failed: set<int>, cursor: nat)
    returns (sample: seq<Proxy>, next: nat, ghost moved: nat)
    requires DistinctIds(Probeable(proxies))
    ensures Probeable(proxies) == [] ==> sample == [] && next == 0
    ensures Probeable(proxies) != [] ==>
              var valid := Sort(ById, Probeable(proxies));
              valid != [] && IdsAscend(valid) && IsSample(valid, failed, cursor, moved, sample)
                  && next == CursorAfter(cursor, moved, |valid|)
  {
    var valid: seq<Proxy> := [];
    for i := 0 to |proxies|
      invariant valid == Probeable(proxies[..i])
    {
      assert proxies[..i + 1][..i] == proxies[..i];
      if proxies[i].Some? && proxies[i].value.port > 0 {
        valid := valid + [proxies[i].value];
      }
    }
    assert proxies[..|proxies|] == proxies;
    if valid == [] {
      return [], 0, 0;
    }
    ghost var unsorted := valid;
    valid := Sort(ById, valid);
    SortAscends(unsorted);
    sample := FailedFirst(valid, failed);
    sample, next, moved := FillFromCursor(valid, failed, sample, cursor);
  }

  lemma SortKeepsDistinctIds(s: seq<Proxy>)
    requires DistinctIds(s)
    ensures DistinctIds(Sort(ById, s))
  {
    var r := Sort(ById, s);
    assert Separates(ById, s);
    SortSorted(ById, s);
    InSame(r, s);
    hide Sort, ById;
    forall i, j | 0 <= i < j < |r| ensures r[i].id != r[j].id {
      assert r[i] in s && r[j] in s;
      CountedTwice(r, i, j);
      IdsOnce(s, r[j]);
    }
  }

  lemma SortAscends(s: seq<Proxy>)
    requires DistinctIds(s)
    ensures DistinctIds(Sort(ById, s)) && IdsAscend(Sort(ById, s))
  {
    SortKeepsDistinctIds(s);
    SortSorted(ById, s);
    hide Sort;
    var r := Sort(ById, s);
    forall i, j | 0 <= i < j < |r| ensures r[i].id < r[j].id {
      assert !ById(r[j], r[i]);
    }
  }

  lemma {:induction false} IdsOnce(s: seq<Proxy>, p: Proxy)
    requires DistinctIds(s)
    ensures multiset(s)[p] == if p in s then 1 else 0
  {
    if s != [] {
      assert s == s[..|s| - 1] + [s[|s| - 1]];
      IdsOnce(s[..|s| - 1], p);
    }
  }

  predicate FailedFirstOf(valid: seq<Proxy>, failed: set<int>, first: seq<Proxy>) {
    var bad := FailedOf(valid, failed);
    first == bad[..Min(3, |bad|)]
  }

  /** First loop: up to three failed proxies, lowest IDs first. */
  method FailedFirst(valid: seq<Proxy>, failed: set<int>) returns (result: seq<Proxy>)
    ensures FailedFirstOf(valid, failed, result)
  {
    result := [];
    for i := 0 to |valid|
      invariant FailedFirstOf(valid[..i], failed, result)
    {
      assert valid[..i + 1][..i] == valid[..i];
      if valid[i].id in failed && |result| < 3 {
        result := result + [valid[i]];
      }
    }
    assert valid[..|valid|] == valid;
  }

  lemma {:induction false} FailedOfAre(valid: seq<Proxy>, failed: set<int>)
    ensures forall p :: p in FailedOf(valid, failed) <==> p in valid && p.id in failed
  {
    if valid != [] {
      FailedOfAre(valid[..|valid| - 1], failed);
      assert valid == valid[..|valid| - 1] + [valid[|valid| - 1]];
    }
  }

  lemma {:induction false} FailedDistinct(valid: seq<Proxy>, failed: set<int>)
    requires DistinctIds(valid)
    ensures Distinct(FailedOf(valid, failed))
  {
    if valid != [] {
      FailedOfAre(valid[..|valid| - 1], failed);
      FailedDistinct(valid[..|valid| - 1], failed);
    }
  }

  /** Second loop: go round from the cursor until three are chosen or every proxy was seen. */
  method FillFromCursor(valid: seq<Proxy>, ghost failed: set<int>, first: seq<Proxy>, cursor: nat)
    returns (result: seq<Proxy>, next: nat, ghost moved: nat)
    requires valid != [] && DistinctIds(valid)
    requires FailedFirstOf(valid, failed, first)
    ensures IsSample(valid, failed, cursor, moved, result) && next == CursorAfter(cursor, moved, |valid|)
  {
    var n := |valid|;
    FirstFills(valid, failed, first, cursor);
    StartOfTurn(cursor, n);
    hide *;
    result := first;
    next := cursor;
    var visited := 0;
    while visited < n && |result| < 3
      invariant 0 <= visited <= n && next == CursorAfter(cursor, visited, n)
      invariant Filling(valid, failed, first, cursor, visited, result)
    {
      result, next := Visit(valid, failed, first, cursor, visited, result, next);
      visited := visited + 1;
    }
    moved := visited;
    FilledIsSample(valid, failed, first, cursor, visited, result);
  }

  /** One turn of the second loop: take the proxy at the cursor unless it is chosen already, and move on. */
  method Visit(valid: seq<Proxy>, ghost failed: set<int>, ghost first: seq<Proxy>, ghost cursor: nat, ghost visited: nat,
               result: seq<Proxy>, next: nat) returns (more: seq<Proxy>, after: nat)
    requires valid != [] && DistinctIds(valid) && visited < |valid| && |result| < 3
    requires Filling(valid, failed, first, cursor, visited, result) && next == CursorAfter(cursor, visited, |valid|)
    ensures Filling(valid, failed, first, cursor, visited + 1, more) && after == CursorAfter(cursor, visited + 1, |valid|)
  {
    hide *;
    CursorStep(cursor, visited, |valid|);
    PassedIs(valid, cursor, visited);
    PassedJoins(valid, failed, first, cursor, visited, result);
    var p := valid[Wrap(next, |valid|)];
    after := Wrap(next + 1, |valid|);
    more := if p in result then result else result + [p];
  }

  /** The sample so far: the failed proxies first, then everything the cursor has passed, without repetitions; with no
      failed proxies it is just what the cursor has passed. */
  ghost predicate Filling(valid: seq<Proxy>, failed: set<int>, first: seq<Proxy>, cursor: nat, visited: nat,
                          result: seq<Proxy>)
    requires valid != []
  {
    && |result| <= 3 && first <= result && (visited == 0 ==> result == first) && (|first| >= 3 ==> visited == 0)
    && Distinct(result) && (forall p | p in result :: p in valid)
    && CursorPasses(valid, cursor, visited, result)
    && (FailedOf(valid, failed) == [] ==> Fresh(valid, cursor, visited, result))
  }

  ghost predicate Fresh(valid: seq<Proxy>, cursor: nat, visited: nat, result: seq<Proxy>)
    requires valid != []
  {
    |result| == visited && forall i | 0 <= i < |result| :: result[i] == Passed(valid, cursor, i)
  }

  lemma FilledIsSample(valid: seq<Proxy>, failed: set<int>, first: seq<Proxy>, cursor: nat, visited: nat,
                       result: seq<Proxy>)
    requires valid != [] && DistinctIds(valid) && visited <= |valid|
    requires FailedFirstOf(valid, failed, first)
    requires Filling(valid, failed, first, cursor, visited, result)
    requires visited >= |valid| || |result| >= 3
    ensures IsSample(valid, failed, cursor, visited, result)
  {
    hide FailedOf, Passed, CursorPasses, Distinct, DistinctIds;
    SampleSize(valid, cursor, visited, result);
  }

  lemma FirstFills(valid: seq<Proxy>, failed: set<int>, first: seq<Proxy>, cursor: nat)
    requires valid != [] && DistinctIds(valid)
    requires FailedFirstOf(valid, failed, first)
    ensures Filling(valid, failed, first, cursor, 0, first)
  {
    FailedDistinct(valid, failed);
    FailedOfAre(valid, failed);
  }

  /** Adding the proxy at the cursor unless it is there already. */
  lemma PassedJoins(valid: seq<Proxy>, failed: set<int>, first: seq<Proxy>, cursor: nat, visited: nat,
                    result: seq<Proxy>)
    requires valid != [] && DistinctIds(valid) && visited < |valid| && |result| < 3
    requires Filling(valid, failed, first, cursor, visited, result)
    ensures var p := Passed(valid, cursor, visited);
            Filling(valid, failed, first, cursor, visited + 1, if p in result then result else result + [p])
  {
    hide Passed, FailedOf, DistinctIds;
    PassedIs(valid, cursor, visited);
    if FailedOf(valid, failed) == [] {
      NotYetPassed(valid, cursor, visited, result);
    }
  }

  lemma StartOfTurn(cursor: nat, n: nat)
    requires n > 0
    ensures CursorAfter(cursor, 0, n) == cursor
  {
  }

  lemma PassedIs(valid: seq<Proxy>, cursor: nat, t: nat)
    requires valid != []
    ensures Passed(valid, cursor, t) == valid[Wrap(cursor + t, |valid|)]
  {
  }

  lemma CursorStep(cursor: nat, visited: nat, n: nat)
    requires n > 0
    ensures Wrap(CursorAfter(cursor, visited, n), n) == Wrap(cursor + visited, n)
    ensures Wrap(CursorAfter(cursor, visited, n) + 1, n) == CursorAfter(cursor, visited + 1, n)
  {
    var c := CursorAfter(cursor, visited, n);
    DivModIs((cursor + visited) % n, n, 0, (cursor + visited) % n);
    ModAdd(c, cursor + visited, 1, n);
  }

  lemma NotYetPassed(valid: seq<Proxy>, cursor: nat, visited: nat, result: seq<Proxy>)
    requires valid != [] && DistinctIds(valid) && visited < |valid| && Fresh(valid, cursor, visited, result)
    ensures Passed(valid, cursor, visited) !in result
  {
    forall i | 0 <= i < |result| ensures result[i] != Passed(valid, cursor, visited) {
      ModDifferent(cursor, i, visited, |valid|);
    }
  }

  lemma SampleSize(valid: seq<Proxy>, cursor: nat, visited: nat, result: seq<Proxy>)
    requires valid != [] && DistinctIds(valid)
    requires Distinct(result) && (forall p | p in result :: p in valid)
    requires visited <= |valid| && CursorPasses(valid, cursor, visited, result)
    requires |result| <= 3 && (visited == |valid| || |result| == 3)
    ensures |result| == Min(3, |valid|)
  {
    var r, v := set p | p in result, set p | p in valid;
    DistinctSize(result);
    DistinctSize(valid);
    SubsetSize(r, v);
    if |result| < 3 {
      forall p | p in v ensures p in r {
        var i :| 0 <= i < |valid| && valid[i] == p;
        var t := ModReaches(cursor, i, |valid|);
        assert Passed(valid, cursor, t) == p;
      }
      SubsetSize(v, r);
    }
  }

  // ---- Coverage over consecutive calls ----

  /** Consecutive calls on a fixed list: call i sees the failures known then and moves the cursor by moves[i]. */
  ghost predicate Calls(valid: seq<Proxy>, failures: seq<set<int>>, cursors: seq<nat>, moves: seq<nat>,
                        samples: seq<seq<Proxy>>)
    requires valid != []
  {
    && |failures| == |moves| == |samples| && |cursors| == |moves| + 1
    && forall i | 0 <= i < |moves| ::
         IsSample(valid, failures[i], cursors[i], moves[i], samples[i]) &&
         cursors[i + 1] == CursorAfter(cursors[i], moves[i], |valid|)
  }

  ghost function Sum(moves: seq<nat>): nat {
    if moves == [] then 0 else Sum(moves[..|moves| - 1]) + moves[|moves| - 1]
  }

  ghost predicate SampledBefore(p: Proxy, samples: seq<seq<Proxy>>) {
    exists i | 0 <= i < |samples| :: p in samples[i]
  }

  /** Together the calls sample everything the cursor moved past since the start. */
  lemma {:induction false} EverythingPassedIsSampled(valid: seq<Proxy>, failures: seq<set<int>>, cursors: seq<nat>,
                                  moves: seq<nat>, samples: seq<seq<Proxy>>)
    requires valid != [] && Calls(valid, failures, cursors, moves, samples)
    ensures cursors[|moves|] % |valid| == (cursors[0] + Sum(moves)) % |valid|
    ensures forall t | 0 <= t < Sum(moves) :: SampledBefore(Passed(valid, cursors[0], t), samples)
    decreases |moves|
  {
    hide FailedOf, Passed, Distinct;
    if moves != [] {
      var k, n := |moves| - 1, |valid|;
      EverythingPassedIsSampled(valid, failures[..k], cursors[..k + 1], moves[..k], samples[..k]);
      var before := Sum(moves[..k]);
      ModAdd(cursors[k], cursors[0] + before, moves[k], n);
      DivModIs((cursors[k] + moves[k]) % n, n, 0, (cursors[k] + moves[k]) % n);
      forall t | 0 <= t < Sum(moves) ensures SampledBefore(Passed(valid, cursors[0], t), samples) {
        if t < before {
          SampledStays(Passed(valid, cursors[0], t), samples);
        } else {
          PassedShift(valid, cursors[0], before, cursors[k], t - before);
          assert Passed(valid, cursors[k], t - before) in samples[k];
        }
      }
    }
  }

  lemma SampledStays(p: Proxy, samples: seq<seq<Proxy>>)
    requires samples != [] && SampledBefore(p, samples[..|samples| - 1])
    ensures SampledBefore(p, samples)
  {
    var i :| 0 <= i < |samples| - 1 && p in samples[..|samples| - 1][i];
    assert p in samples[i];
  }

  lemma PassedShift(valid: seq<Proxy>, start: nat, before: nat, cursor: nat, t: nat)
    requires valid != [] && cursor % |valid| == (start + before) % |valid|
    ensures Passed(valid, cursor, t) == Passed(valid, start, before + t)
  {
    ModAdd(cursor, start + before, t, |valid|);
  }

  lemma CoveredOnceRound(valid: seq<Proxy>, failures: seq<set<int>>, cursors: seq<nat>, moves: seq<nat>,
                         samples: seq<seq<Proxy>>)
    requires valid != [] && Calls(valid, failures, cursors, moves, samples)
    requires Sum(moves) >= |valid|
    ensures forall p | p in valid :: SampledBefore(p, samples)
  {
    hide FailedOf, Passed, SampledBefore;
    EverythingPassedIsSampled(valid, failures, cursors, moves, samples);
    forall p | p in valid ensures SampledBefore(p, samples) {
      var t := IsPassed(valid, cursors[0], p);
      assert SampledBefore(Passed(valid, cursors[0], t), samples);
    }
  }

  lemma IsPassed(valid: seq<Proxy>, cursor: nat, p: Proxy) returns (t: nat)
    requires valid != [] && p in valid
    ensures t < |valid| && Passed(valid, cursor, t) == p
  {
    var i :| 0 <= i < |valid| && valid[i] == p;
    t := ModReaches(cursor, i, |valid|);
  }

  lemma {:induction false} SumAtLeast(moves: seq<nat>, each: nat)
    requires forall i | 0 <= i < |moves| :: moves[i] >= each
    ensures Sum(moves) >= |moves| * each
  {
    if moves != [] {
      SumAtLeast(moves[..|moves| - 1], each);
      assert |moves| * each == (|moves| - 1) * each + each;
    }
  }

  /** n calls with fewer than three failed proxies each sample all n proxies, from any cursor. */
  lemma CoverageWithFailures(valid: seq<Proxy>, failures: seq<set<int>>, cursors: seq<nat>, moves: seq<nat>,
                             samples: seq<seq<Proxy>>)
    requires valid != [] && Calls(valid, failures, cursors, moves, samples)
    requires |moves| >= |valid| && forall i | 0 <= i < |failures| :: |FailedOf(valid, failures[i])| < 3
    ensures forall p | p in valid :: SampledBefore(p, samples)
  {
    SumAtLeast(moves, 1);
    CoveredOnceRound(valid, failures, cursors, moves, samples);
  }

  /** With no failed proxies a third as many calls, rounded up, suffice. */
  lemma CoverageWithoutFailures(valid: seq<Proxy>, failures: seq<set<int>>, cursors: seq<nat>, moves: seq<nat>,
                                samples: seq<seq<Proxy>>)
    requires valid != [] && Calls(valid, failures, cursors, moves, samples)
    requires |moves| >= (|valid| + 2) / 3 && forall i | 0 <= i < |failures| :: FailedOf(valid, failures[i]) == []
    ensures forall p | p in valid :: SampledBefore(p, samples)
  {
    SumAtLeast(moves, Min(3, |valid|));
    CoveredOnceRound(valid, failures, cursors, moves, samples);
  }

  ghost predicate IdsAscend(valid: seq<Proxy>) {
    forall i, j | 0 <= i < j < |valid| :: valid[i].id < valid[j].id
  }

  lemma {:induction false} FailedAscend(valid: seq<Proxy>, failed: set<int>)
    requires IdsAscend(valid)
    ensures IdsAscend(FailedOf(valid, failed))
  {
    if valid != [] {
      var init := valid[..|valid| - 1];
      FailedAscend(init, failed);
      FailedOfAre(init, failed);
      var bad := FailedOf(init, failed);
      forall i | 0 <= i < |bad| ensures bad[i].id < valid[|valid| - 1].id {
        assert bad[i] in init;
      }
    }
  }

  /** The complement: with three or more failed proxies a call leaves the cursor where it is and samples just the three
      failed ones with the lowest IDs. So as long as that many fail, any number of calls sample nothing else. */
  lemma StuckWhileThreeFail(valid: seq<Proxy>, failures: seq<set<int>>, cursors: seq<nat>, moves: seq<nat>,
                            samples: seq<seq<Proxy>>)
    requires valid != [] && IdsAscend(valid) && Calls(valid, failures, cursors, moves, samples)
    requires forall i | 0 <= i < |failures| :: |FailedOf(valid, failures[i])| >= 3
    ensures forall k | 0 <= k < |cursors| :: cursors[k] == cursors[0]
    ensures forall p :: SampledBefore(p, samples) <==> exists i :: 0 <= i < |failures| && LowestFailed(valid, failures[i], p)
  {
    hide FailedOf, Passed, Distinct, LowestFailed;
    forall i | 0 <= i < |moves| ensures cursors[i + 1] == cursors[i] && forall p :: p in samples[i] <==> LowestFailed(valid, failures[i], p) {
      ThreeLowest(valid, failures[i], cursors[i], moves[i], samples[i]);
    }
    forall k | 0 <= k < |cursors| ensures cursors[k] == cursors[0] {
      Unmoved(cursors, k);
    }
  }

  lemma {:induction false} Unmoved(cursors: seq<nat>, k: nat)
    requires k < |cursors| && forall i | 0 <= i < |cursors| - 1 :: cursors[i + 1] == cursors[i]
    ensures cursors[k] == cursors[0]
  {
    if k > 0 {
      Unmoved(cursors, k - 1);
      assert cursors[(k - 1) + 1] == cursors[k - 1];
    }
  }

  /** A failed proxy with fewer than three failed ones below it. */
  ghost predicate LowestFailed(valid: seq<Proxy>, failed: set<int>, p: Proxy) {
    p in valid && p.id in failed && RankOf(FailedOf(valid, failed), p) < 3
  }

  /** How many members of the list have a lower ID. */
  function RankOf(s: seq<Proxy>, p: Proxy): nat {
    if s == [] then 0 else RankOf(s[..|s| - 1], p) + if s[|s| - 1].id < p.id then 1 else 0
  }

  lemma {:induction false} RankInOrder(s: seq<Proxy>, k: nat)
    requires IdsAscend(s) && k < |s|
    ensures RankOf(s, s[k]) == k
  {
    RankBelow(s, k, |s|);
    assert s[..|s|] == s;
  }

  lemma {:induction false} RankBelow(s: seq<Proxy>, k: nat, n: nat)
    requires IdsAscend(s) && k < |s| && n <= |s|
    ensures RankOf(s[..n], s[k]) == Min(n, k)
  {
    if n > 0 {
      RankBelow(s, k, n - 1);
      assert s[..n][..n - 1] == s[..n - 1];
    }
  }

  lemma ThreeLowest(valid: seq<Proxy>, failed: set<int>, cursor: nat, moved: nat, sample: seq<Proxy>)
    requires valid != [] && IdsAscend(valid) && IsSample(valid, failed, cursor, moved, sample)
    requires |FailedOf(valid, failed)| >= 3
    ensures CursorAfter(cursor, moved, |valid|) == cursor && sample == FailedOf(valid, failed)[..3]
    ensures forall p :: p in sample <==> LowestFailed(valid, failed, p)
  {
    hide FailedOf, Passed, Distinct;
    var bad := FailedOf(valid, failed);
    FailedAscend(valid, failed);
    FailedOfAre(valid, failed);
    assert sample == sample[..3] == bad[..3];
    forall p ensures p in sample <==> LowestFailed(valid, failed, p) {
      if p in bad {
        var k :| 0 <= k < |bad| && bad[k] == p;
        RankInOrder(bad, k);
        if p in bad[..3] {
          var i :| 0 <= i < 3 && bad[i] == p;
          RankInOrder(bad, i);
        }
      }
    }
  }
}
