/** How often smooth weighted round robin picks each node. */
module SelectionFairness {
  import opened Common
  import opened NodeSelection

  // ---- The weight map sums to zero ----

  ghost function SumOver<K>(ids: set<K>, m: map<K, int>): int {
    if ids == {} then 0
    else
      var id :| id in ids;
      Get(m, id) + SumOver(ids - {id}, m)
  }

  lemma {:induction false} SumOverPick<K>(ids: set<K>, id: K, m: map<K, int>)
    requires id in ids
    ensures SumOver(ids, m) == Get(m, id) + SumOver(ids - {id}, m)
  {
    var x :| x in ids && SumOver(ids, m) == Get(m, x) + SumOver(ids - {x}, m);
    if x != id {
      SumOverPick(ids - {x}, id, m);
      SumOverPick(ids - {id}, x, m);
      assert ids - {x} - {id} == ids - {id} - {x};
    }
  }

  lemma {:induction false} SumOverDifference<K>(ids: set<K>, a: map<K, int>, b: map<K, int>, at: K, amount: int)
    requires forall id | id in ids :: Get(b, id) == Get(a, id) + (if id == at then amount else 0)
    ensures SumOver(ids, b) == SumOver(ids, a) + (if at in ids then amount else 0)
  {
    if ids != {} {
      var id :| id in ids;
      SumOverPick(ids, id, a);
      SumOverPick(ids, id, b);
      SumOverDifference(ids - {id}, a, b, at, amount);
    }
  }

  lemma {:induction false} SumOverWiden<K>(small: set<K>, large: set<K>, m: map<K, int>)
    requires small <= large && forall id | id in large - small :: Get(m, id) == 0
    ensures SumOver(small, m) == SumOver(large, m)
  {
    if small != large {
      var id :| id in large && id !in small;
      SumOverPick(large, id, m);
      SumOverWiden(small, large - {id}, m);
    }
  }

  lemma {:induction false} NoPositiveSum<K>(ids: set<K>, m: map<K, int>)
    requires forall id | id in ids :: Get(m, id) <= 0
    ensures SumOver(ids, m) <= 0
  {
    if ids != {} {
      var id :| id in ids;
      SumOverPick(ids, id, m);
      NoPositiveSum(ids - {id}, m);
    }
  }

  lemma {:induction false} SumOverRaised(ids: set<int>, weights: map<int, int>, nodes: seq<Node>)
    requires IdsOf(nodes) <= ids
    ensures SumOver(ids, Raised(weights, nodes)) == SumOver(ids, weights) + TotalWeight(nodes)
    decreases |nodes|
  {
    hide EffectiveWeight;
    var up := Raised(weights, nodes);
    if nodes == [] {
      SumOverDifference(ids, weights, up, 0, 0);
    } else {
      var front, last := nodes[..|nodes| - 1], nodes[|nodes| - 1];
      assert last.id in IdsOf(nodes) && IdsOf(front) <= IdsOf(nodes);
      SumOverRaised(ids, weights, front);
      var mid := Raised(weights, front);
      forall id | id in ids ensures Get(up, id) == Get(mid, id) + (if id == last.id then EffectiveWeight(last) else 0) {
        if id !in IdsOf(front) { GainNone(front, id); }
        if id !in IdsOf(nodes) { GainNone(nodes, id); }
      }
      SumOverDifference(ids, mid, up, last.id, EffectiveWeight(last));
    }
  }

  /** Whatever nodes are offered from one selection to the next, a selection moves weight between nodes
      but creates none: the sum over the whole map does not change. */
  lemma TurnKeepsSum(before: map<int, int>, nodes: seq<Node>, chosen: Node, after: map<int, int>)
    requires Turn(before, nodes, chosen, after)
    ensures SumOver(after.Keys, after) == SumOver(before.Keys, before)
  {
    var raised := Raised(before, nodes);
    assert chosen.id in IdsOf(nodes);
    SumOverWiden(before.Keys, raised.Keys, before);
    SumOverRaised(raised.Keys, before, nodes);
    SumOverDifference(raised.Keys, raised, after, chosen.id, -TotalWeight(nodes));
    assert after.Keys == raised.Keys;
  }

  /** A sequence of selections, each from its own list of nodes. */
  ghost predicate Selections(states: seq<map<int, int>>, offered: seq<seq<Node>>, picks: seq<Node>) {
    && |states| == |picks| + 1 && |offered| == |picks|
    && states[0] == map[]
    && forall i | 0 <= i < |picks| :: Turn(states[i], offered[i], picks[i], states[i + 1])
  }

  lemma {:induction false} WeightsSumToZero(states: seq<map<int, int>>, offered: seq<seq<Node>>, picks: seq<Node>)
    requires Selections(states, offered, picks)
    ensures SumOver(states[|picks|].Keys, states[|picks|]) == 0
    decreases |picks|
  {
    if picks != [] {
      var n := |picks| - 1;
      WeightsSumToZero(states[..n + 1], offered[..n], picks[..n]);
      TurnKeepsSum(states[n], offered[n], picks[n], states[n + 1]);
    }
  }

  // ---- A fixed set of nodes ----

  /** Selections from one list of nodes, all of whose current weights start at zero. */
  ghost predicate FixedRun(nodes: seq<Node>, states: seq<map<int, int>>, picks: seq<Node>) {
    && nodes != [] && DistinctIds(nodes)
    && |states| == |picks| + 1
    && (forall n | n in nodes :: Get(states[0], n.id) == 0)
    && forall i | 0 <= i < |picks| :: Turn(states[i], nodes, picks[i], states[i + 1])
  }

  ghost function Picked(picks: seq<Node>, n: Node): nat {
    if picks == [] then 0
    else Picked(picks[..|picks| - 1], n) + (if picks[|picks| - 1] == n then 1 else 0)
  }

  lemma PrefixRun(nodes: seq<Node>, states: seq<map<int, int>>, picks: seq<Node>)
    requires FixedRun(nodes, states, picks) && picks != []
    ensures FixedRun(nodes, states[..|picks|], picks[..|picks| - 1])
  {
  }

  lemma RaisedAt(before: map<int, int>, nodes: seq<Node>, n: Node)
    requires DistinctIds(nodes) && n in nodes
    ensures Get(Raised(before, nodes), n.id) == Get(before, n.id) + EffectiveWeight(n)
  {
    var i :| 0 <= i < |nodes| && nodes[i] == n;
    GainIs(nodes, i);
    assert n.id in IdsOf(nodes);
  }

  /** The weight of a node is what it has earned minus what its picks have cost. */
  lemma {:induction false} WeightFormula(nodes: seq<Node>, states: seq<map<int, int>>, picks: seq<Node>, n: Node)
    requires FixedRun(nodes, states, picks) && n in nodes
    ensures Get(states[|picks|], n.id) == |picks| * EffectiveWeight(n) - TotalWeight(nodes) * Picked(picks, n)
    decreases |picks|
  {
    hide EffectiveWeight, TotalWeight, Turn, Raised;
    if picks != [] {
      var k := |picks| - 1;
      PrefixRun(nodes, states, picks);
      WeightFormula(nodes, states[..k + 1], picks[..k], n);
      assert Turn(states[k], nodes, picks[k], states[k + 1]);
      FormulaStep(Get(states[k], n.id), k, EffectiveWeight(n), TotalWeight(nodes), Picked(picks[..k], n), picks[k] == n);
      TurnMoves(states[k], nodes, picks[k], states[k + 1], n);
    }
  }

  lemma FormulaStep(x: int, k: int, e: int, t: int, c: int, picked: bool)
    requires x == k * e - t * c
    ensures x + e - (if picked then t else 0) == (k + 1) * e - t * (c + if picked then 1 else 0)
  {
  }

  lemma TurnMoves(before: map<int, int>, nodes: seq<Node>, chosen: Node, after: map<int, int>, n: Node)
    requires DistinctIds(nodes) && n in nodes && Turn(before, nodes, chosen, after)
    ensures Get(after, n.id) == Get(before, n.id) + EffectiveWeight(n) - (if chosen == n then TotalWeight(nodes) else 0)
  {
    hide EffectiveWeight, TotalWeight;
    RaisedAt(before, nodes, n);
    SameIdSameNode(nodes, chosen, n);
  }

  lemma SameIdSameNode(nodes: seq<Node>, a: Node, b: Node)
    requires DistinctIds(nodes) && a in nodes && b in nodes
    ensures a.id == b.id <==> a == b
  {
    var i :| 0 <= i < |nodes| && nodes[i] == a;
    var j :| 0 <= j < |nodes| && nodes[j] == b;
  }

  /** The sum of one quantity over the nodes of the list. */
  ghost function SumNodes(nodes: seq<Node>, m: map<int, int>): int {
    if nodes == [] then 0 else SumNodes(nodes[..|nodes| - 1], m) + Get(m, nodes[|nodes| - 1].id)
  }

  lemma {:induction false} SumNodesIsSumOver(nodes: seq<Node>, m: map<int, int>)
    requires DistinctIds(nodes)
    ensures SumNodes(nodes, m) == SumOver(IdsOf(nodes), m)
  {
    if nodes != [] {
      var front, last := nodes[..|nodes| - 1], nodes[|nodes| - 1];
      SumNodesIsSumOver(front, m);
      assert last.id in IdsOf(nodes);
      assert IdsOf(nodes) - {last.id} == IdsOf(front);
      SumOverPick(IdsOf(nodes), last.id, m);
    }
  }

  lemma {:induction false} FixedSumZero(nodes: seq<Node>, states: seq<map<int, int>>, picks: seq<Node>)
    requires FixedRun(nodes, states, picks)
    ensures SumOver(IdsOf(nodes), states[|picks|]) == 0
    decreases |picks|
  {
    var ids := IdsOf(nodes);
    if picks == [] {
      SumOverWiden({}, ids, states[0]);
    } else {
      var k := |picks| - 1;
      PrefixRun(nodes, states, picks);
      FixedSumZero(nodes, states[..k + 1], picks[..k]);
      SumOverRaised(ids, states[k], nodes);
      assert Turn(states[k], nodes, picks[k], states[k + 1]);
      assert picks[k].id in ids;
      SumOverDifference(ids, Raised(states[k], nodes), states[k + 1], picks[k].id, -TotalWeight(nodes));
    }
  }

  /** The chosen node's raised weight is positive: the raised weights add up to the total weight. */
  lemma HeaviestIsPositive(before: map<int, int>, nodes: seq<Node>, chosen: Node)
    requires nodes != [] && DistinctIds(nodes) && SumOver(IdsOf(nodes), before) == 0
    requires IsHeaviest(chosen, nodes, Raised(before, nodes))
    ensures Get(Raised(before, nodes), chosen.id) > 0
  {
    hide EffectiveWeight;
    var raised := Raised(before, nodes);
    SumOverRaised(IdsOf(nodes), before, nodes);
    if Get(raised, chosen.id) <= 0 {
      NoPositiveSum(IdsOf(nodes), raised);
      assert false;
    }
  }

  /** No current weight ever falls to minus the total weight. */
  lemma {:induction false} WeightAboveFloor(nodes: seq<Node>, states: seq<map<int, int>>, picks: seq<Node>, n: Node)
    requires FixedRun(nodes, states, picks) && n in nodes
    ensures Get(states[|picks|], n.id) > -TotalWeight(nodes)
    decreases |picks|
  {
    hide EffectiveWeight;
    if picks != [] {
      var k := |picks| - 1;
      PrefixRun(nodes, states, picks);
      WeightAboveFloor(nodes, states[..k + 1], picks[..k], n);
      FixedSumZero(nodes, states[..k + 1], picks[..k]);
      RaisedAt(states[k], nodes, n);
      assert Turn(states[k], nodes, picks[k], states[k + 1]);
      HeaviestIsPositive(states[k], nodes, picks[k]);
      EffectiveWeightPositive(n);
    }
  }

  lemma EffectiveWeightPositive(n: Node)
    ensures EffectiveWeight(n) >= 1
  {
  }

  /** Upper quota, for runs of any length: in k selections out of a total weight T a node of effective
      weight w is picked fewer than k * w / T + 1 times. */
  lemma UpperQuota(nodes: seq<Node>, states: seq<map<int, int>>, picks: seq<Node>, n: Node)
    requires FixedRun(nodes, states, picks) && n in nodes
    ensures TotalWeight(nodes) * Picked(picks, n) < |picks| * EffectiveWeight(n) + TotalWeight(nodes)
  {
    hide EffectiveWeight, TotalWeight;
    WeightFormula(nodes, states, picks, n);
    WeightAboveFloor(nodes, states, picks, n);
  }

  /** Within the first T selections no node is picked more often than its effective weight. */
  lemma PrefixFairness(nodes: seq<Node>, states: seq<map<int, int>>, picks: seq<Node>, n: Node)
    requires FixedRun(nodes, states, picks) && n in nodes
    requires |picks| <= TotalWeight(nodes)
    ensures Picked(picks, n) <= EffectiveWeight(n)
  {
    UpperQuota(nodes, states, picks, n);
    QuotaBound(TotalWeight(nodes), |picks|, 1, EffectiveWeight(n), Picked(picks, n));
  }

  lemma QuotaBound(t: int, k: int, rounds: nat, w: int, c: int)
    requires t > 0 && w >= 1 && k <= rounds * t && t * c < k * w + t
    ensures c <= rounds * w
  {
    MulMonotone(k, rounds * t, w);
    MulShuffle(rounds, t, w);
    var share := rounds * w;
    assert t * (share + 1) == t * share + t;
    if c > share {
      MulMonotone(share + 1, c, t);
    }
  }

  lemma MulShuffle(a: int, b: int, c: int)
    ensures (a * b) * c == b * (a * c)
  {
    assert (a * b) * c == a * (b * c);
  }

  lemma MulMonotone(a: int, b: int, c: int)
    requires a <= b && c >= 0
    ensures a * c <= b * c
  {
  }

  ghost function PickedTotal(nodes: seq<Node>, picks: seq<Node>): nat {
    if nodes == [] then 0 else PickedTotal(nodes[..|nodes| - 1], picks) + Picked(picks, nodes[|nodes| - 1])
  }

  lemma {:induction false} PickedOnce(nodes: seq<Node>, picks: seq<Node>)
    requires DistinctIds(nodes) && picks != []
    ensures PickedTotal(nodes, picks) ==
            PickedTotal(nodes, picks[..|picks| - 1]) + (if picks[|picks| - 1] in nodes then 1 else 0)
    decreases |nodes|
  {
    if nodes != [] {
      var front, last := nodes[..|nodes| - 1], nodes[|nodes| - 1];
      PickedOnce(front, picks);
      assert nodes == front + [last];
      assert last !in front;
    }
  }

  lemma {:induction false} PicksAddUp(nodes: seq<Node>, states: seq<map<int, int>>, picks: seq<Node>)
    requires FixedRun(nodes, states, picks)
    ensures PickedTotal(nodes, picks) == |picks|
    decreases |picks|
  {
    if picks == [] {
      NonePicked(nodes);
    } else {
      PrefixRun(nodes, states, picks);
      PicksAddUp(nodes, states[..|picks|], picks[..|picks| - 1]);
      PickedOnce(nodes, picks);
      assert Turn(states[|picks| - 1], nodes, picks[|picks| - 1], states[|picks|]);
    }
  }

  lemma {:induction false} NonePicked(nodes: seq<Node>)
    ensures PickedTotal(nodes, []) == 0
  {
    if nodes != [] { NonePicked(nodes[..|nodes| - 1]); }
  }

  /** Counts that are nowhere above their shares but add up to the shares' sum are the shares. */
  lemma {:induction false} NoSlack(nodes: seq<Node>, picks: seq<Node>, rounds: nat)
    requires forall n | n in nodes :: Picked(picks, n) <= rounds * EffectiveWeight(n)
    ensures PickedTotal(nodes, picks) <= rounds * TotalWeight(nodes)
    ensures PickedTotal(nodes, picks) == rounds * TotalWeight(nodes) ==>
              forall n | n in nodes :: Picked(picks, n) == rounds * EffectiveWeight(n)
  {
    hide EffectiveWeight;
    if nodes != [] {
      var front, last := nodes[..|nodes| - 1], nodes[|nodes| - 1];
      NoSlack(front, picks, rounds);
      assert rounds * (TotalWeight(front) + EffectiveWeight(last)) == rounds * TotalWeight(front) + rounds * EffectiveWeight(last);
      assert nodes == front + [last];
    }
  }

  /** Exact fairness: after any whole number of periods of T selections every node was picked exactly its
      effective weight times per period, and every current weight is zero again. */
  lemma ExactFairness(nodes: seq<Node>, states: seq<map<int, int>>, picks: seq<Node>, rounds: nat, n: Node)
    requires FixedRun(nodes, states, picks) && n in nodes
    requires |picks| == rounds * TotalWeight(nodes)
    ensures Picked(picks, n) == rounds * EffectiveWeight(n)
    ensures Get(states[|picks|], n.id) == 0
  {
    hide EffectiveWeight;
    forall m | m in nodes ensures Picked(picks, m) <= rounds * EffectiveWeight(m) {
      UpperQuota(nodes, states, picks, m);
      EffectiveWeightPositive(m);
      QuotaBound(TotalWeight(nodes), |picks|, rounds, EffectiveWeight(m), Picked(picks, m));
    }
    PicksAddUp(nodes, states, picks);
    NoSlack(nodes, picks, rounds);
    WeightFormula(nodes, states, picks, n);
    MulShuffle(rounds, TotalWeight(nodes), EffectiveWeight(n));
  }
}
