/** Node preference and the selection strategies (internal/node/load_balancer.go).
    Pressures and weight shares are exact rationals here, where the program uses float64. */
module NodeSelection {
  import opened Common
  import opened Sorting

  datatype NodeStatus = Online | Offline | Unhealthy

  datatype Node = Node(
    id: int, weight: int, maxUsers: int, currentUsers: int, status: NodeStatus,
    trafficTotal: int, trafficLimit: int, alertThreshold: real)

  datatype SelectError = NoAvailableNodes | RepositoryError

  // ---- Preference ----

  function TrafficPressure(n: Node): real {
    if n.trafficLimit <= 0 then -1.0
    else
      var threshold := if n.alertThreshold < 1.0 || n.alertThreshold > 100.0 then 100.0 else n.alertThreshold;
      (n.trafficTotal as real * 100.0 / n.trafficLimit as real) / threshold
  }

  function CapacityPressure(n: Node): real {
    if n.maxUsers <= 0 then 0.0 else n.currentUsers as real / n.maxUsers as real
  }

  predicate Prefer(left: Node, right: Node) {
    if TrafficPressure(left) != TrafficPressure(right) then TrafficPressure(left) < TrafficPressure(right)
    else if CapacityPressure(left) != CapacityPressure(right) then CapacityPressure(left) < CapacityPressure(right)
    else if left.currentUsers != right.currentUsers then left.currentUsers < right.currentUsers
    else if left.weight != right.weight then left.weight > right.weight
    else left.id < right.id
  }

  /** The comparison as it is written, on pointers: a nil node is never preferred. */
  predicate PreferNode(left: Option<Node>, right: Option<Node>) {
    if left.None? then false
    else if right.None? then true
    else Prefer(left.value, right.value)
  }

  ghost predicate DistinctIds(nodes: seq<Node>) {
    forall i, j | 0 <= i < j < |nodes| :: nodes[i].id != nodes[j].id
  }

  /** Preference is a strict order, nil included, and decides between any two nodes with different IDs. */
  lemma PreferIsStrictTotal()
    ensures StrictOrder(PreferNode) && StrictOrder(Prefer)
    ensures forall n: Node :: PreferNode(Some(n), None)
    ensures forall a: Node, b: Node :: PreferNode(Some(a), Some(b)) <==> Prefer(a, b)
    ensures forall a: Node, b: Node | a.id != b.id :: Prefer(a, b) || Prefer(b, a)
  {
    hide TrafficPressure, CapacityPressure;
  }

  lemma DistinctIdsSeparated(nodes: seq<Node>)
    requires DistinctIds(nodes)
    ensures Separates(Prefer, nodes)
  {
    PreferIsStrictTotal();
    hide TrafficPressure, CapacityPressure;
    forall x, y | x in nodes && y in nodes && x != y ensures Prefer(x, y) || Prefer(y, x) {
      var i :| 0 <= i < |nodes| && nodes[i] == x;
      var j :| 0 <= j < |nodes| && nodes[j] == y;
    }
  }

  // ---- Effective weight ----

  /** Round half away from zero, for the positive numbers it is used on. */
  function Round(x: real): int {
    (x + 0.5).Floor
  }

  function ScaledWeight(weight: int, share: real): int {
    Round(weight as real * share)
  }

  function NominalWeight(n: Node): (w: int)
    ensures w >= 1
  {
    if n.weight <= 0 then 1 else n.weight
  }

  /** The share of a node's weight that its remaining traffic leaves it. */
  function Share(n: Node): real
    requires n.trafficLimit > 0
  {
    var ratio := (n.trafficLimit - n.trafficTotal) as real / n.trafficLimit as real;
    if ratio < 0.2 then 0.2 else ratio
  }

  function EffectiveWeight(n: Node): (w: int)
    ensures w >= 1
  {
    var weight := NominalWeight(n);
    if n.trafficLimit <= 0 then weight
    else
      var effective := ScaledWeight(weight, Share(n));
      if effective < 1 then 1 else effective
  }

  lemma RoundedShare(weight: int, share: real)
    requires weight >= 1 && 0.2 <= share <= 1.0
    ensures ScaledWeight(weight, share) <= weight && 5 * ScaledWeight(weight, share) >= weight - 2
  {
    var w, x := weight as real, weight as real * share;
    Scaled(w, 1.0 - share);
    Scaled(w, share - 0.2);
    assert 0.2 * w <= x <= w;
    var r := Round(x);
    assert x - 0.5 < r as real <= x + 0.5;
    assert (5 * r) as real == 5.0 * (r as real);
  }

  lemma Scaled(w: real, s: real)
    requires w >= 0.0 && s >= 0.0
    ensures w * s >= 0.0
  {
  }

  /** Traffic use only ever lowers a weight, to a fifth (rounded) at most and never to nothing. */
  lemma EffectiveWeightBounds(n: Node)
    requires n.trafficTotal >= 0
    ensures EffectiveWeight(n) <= NominalWeight(n)
    ensures 5 * EffectiveWeight(n) >= NominalWeight(n) - 2
  {
    hide ScaledWeight, Share;
    if n.trafficLimit > 0 {
      ShareInRange(n);
      RoundedShare(NominalWeight(n), Share(n));
    }
  }

  lemma ShareInRange(n: Node)
    requires n.trafficTotal >= 0 && n.trafficLimit > 0
    ensures 0.2 <= Share(n) <= 1.0
  {
    AtMostOne((n.trafficLimit - n.trafficTotal) as real, n.trafficLimit as real);
  }

  lemma AtMostOne(a: real, b: real)
    requires a <= b && b > 0.0
    ensures a / b <= 1.0
  {
    var q := a / b;
    assert q * b == a;
  }

  ghost function TotalWeight(nodes: seq<Node>): (t: int)
    ensures t >= |nodes|
  {
    if nodes == [] then 0
    else TotalWeight(nodes[..|nodes| - 1]) + EffectiveWeight(nodes[|nodes| - 1])
  }

  // ---- Smooth weighted round robin ----

  /** The current weights after every listed node received its effective weight. */
  ghost function Raised(weights: map<int, int>, nodes: seq<Node>): map<int, int> {
    map id | id in weights.Keys + IdsOf(nodes) :: Get(weights, id) + GainOf(nodes, id)
  }

  ghost function IdsOf(nodes: seq<Node>): set<int> {
    set n | n in nodes :: n.id
  }

  ghost function GainOf(nodes: seq<Node>, id: int): int {
    if nodes == [] then 0
    else GainOf(nodes[..|nodes| - 1], id)
         + (if nodes[|nodes| - 1].id == id then EffectiveWeight(nodes[|nodes| - 1]) else 0)
  }

  lemma {:induction false} GainNone(nodes: seq<Node>, id: int)
    requires id !in IdsOf(nodes)
    ensures GainOf(nodes, id) == 0
  {
    if nodes != [] {
      assert nodes[|nodes| - 1].id in IdsOf(nodes);
      assert IdsOf(nodes[..|nodes| - 1]) <= IdsOf(nodes);
      GainNone(nodes[..|nodes| - 1], id);
    }
  }

  lemma {:induction false} GainIs(nodes: seq<Node>, i: nat)
    requires DistinctIds(nodes) && i < |nodes|
    ensures GainOf(nodes, nodes[i].id) == EffectiveWeight(nodes[i])
  {
    var front := nodes[..|nodes| - 1];
    if i == |nodes| - 1 {
      assert nodes[i].id !in IdsOf(front);
      GainNone(front, nodes[i].id);
    } else {
      GainIs(front, i);
    }
  }

  /** `n` has the highest raised weight, and is preferred to every node it ties with. */
  ghost predicate IsHeaviest(n: Node, nodes: seq<Node>, raised: map<int, int>) {
    n in nodes && forall m | m in nodes && m != n ::
      Get(raised, m.id) < Get(raised, n.id) || (Get(raised, m.id) == Get(raised, n.id) && Prefer(n, m))
  }

  /** One selection: who is chosen and what the weights become. */
  ghost predicate Turn(before: map<int, int>, nodes: seq<Node>, chosen: Node, after: map<int, int>) {
    var raised := Raised(before, nodes);
    IsHeaviest(chosen, nodes, raised) && after == raised[chosen.id := Get(raised, chosen.id) - TotalWeight(nodes)]
  }

  class WeightedStrategy {
    var weights: map<int, int>

    constructor ()
      ensures weights == map[]
    {
      weights := map[];
    }

    method Select(nodes: seq<Node>) returns (r: Result<Node, SelectError>)
      requires DistinctIds(nodes)
      modifies this
      ensures nodes == [] ==> r == Err(NoAvailableNodes) && weights == old(weights)
      ensures nodes != [] ==> r.Ok? && Turn(old(weights), nodes, r.value, weights)
    {
      hide TrafficPressure, CapacityPressure, EffectiveWeight, TotalWeight, Raised, IsHeaviest;
      if nodes == [] {
        return Err(NoAvailableNodes);
      }
      ghost var before := weights;
      var totalWeight := SumAndInitialize(nodes);
      RaisedSame(before, weights, nodes);
      var selected := RaiseAndPick(nodes);
      HeaviestIsListed(selected, nodes, weights, before);
      weights := weights[selected.id := weights[selected.id] - totalWeight];
      return Ok(selected);
    }

    /** First loop of Select: total weight, and a zero entry for every node not seen before. */
    method SumAndInitialize(nodes: seq<Node>) returns (totalWeight: int)
      modifies this
      ensures totalWeight == TotalWeight(nodes)
      ensures weights.Keys == old(weights).Keys + IdsOf(nodes)
      ensures forall id :: Get(weights, id) == Get(old(weights), id)
    {
      hide TrafficPressure, CapacityPressure, EffectiveWeight;
      totalWeight := 0;
      for i := 0 to |nodes|
        invariant totalWeight == TotalWeight(nodes[..i])
        invariant weights.Keys == old(weights).Keys + IdsOf(nodes[..i])
        invariant forall id :: Get(weights, id) == Get(old(weights), id)
      {
        assert nodes[..i + 1][..i] == nodes[..i];
        assert IdsOf(nodes[..i + 1]) == IdsOf(nodes[..i]) + {nodes[i].id};
        totalWeight := totalWeight + EffectiveWeight(nodes[i]);
        if nodes[i].id !in weights {
          weights := weights[nodes[i].id := 0];
        }
      }
      assert nodes[..|nodes|] == nodes;
    }

    /** Second loop of Select: raise each node's weight and keep the best node so far. */
    method RaiseAndPick(nodes: seq<Node>) returns (selected: Node)
      requires nodes != [] && DistinctIds(nodes) && IdsOf(nodes) <= weights.Keys
      modifies this
      ensures weights == Raised(old(weights), nodes)
      ensures IsHeaviest(selected, nodes, weights)
    {
      hide TrafficPressure, CapacityPressure, EffectiveWeight, Prefer, Raised, GainOf, IsHeaviest;
      PreferIsStrictTotal();
      ghost var before := weights;
      selected := nodes[0];
      var maxWeight := -1;
      assert nodes[..0] == [];
      RaisedNothing(before);
      for i := 0 to |nodes|
        invariant weights == Raised(before, nodes[..i])
        invariant i > 0 ==> maxWeight == Get(weights, selected.id) && IsHeaviest(selected, nodes[..i], weights)
      {
        var n := nodes[i];
        ghost var best, was := selected, weights;
        RaisedStep(before, nodes, i);
        weights := weights[n.id := weights[n.id] + EffectiveWeight(n)];
        if i == 0 || weights[n.id] > maxWeight || (weights[n.id] == maxWeight && Prefer(n, selected)) {
          maxWeight := weights[n.id];
          selected := n;
        }
        HeaviestExtends(best, n, selected, nodes[..i], was, weights);
        assert nodes[..i + 1] == nodes[..i] + [n];
      }
      assert nodes[..|nodes|] == nodes;
    }
  }

  lemma HeaviestIsListed(n: Node, nodes: seq<Node>, weights: map<int, int>, before: map<int, int>)
    requires IsHeaviest(n, nodes, weights) && weights == Raised(before, nodes)
    ensures n.id in weights
  {
  }

  lemma RaisedNothing(weights: map<int, int>)
    ensures Raised(weights, []) == weights
  {
  }

  lemma RaisedStep(weights: map<int, int>, nodes: seq<Node>, i: nat)
    requires i < |nodes| && IdsOf(nodes) <= weights.Keys
    ensures var cur, n := Raised(weights, nodes[..i]), nodes[i];
            n.id in cur && Raised(weights, nodes[..i + 1]) == cur[n.id := cur[n.id] + EffectiveWeight(n)]
  {
    hide EffectiveWeight;
    var n := nodes[i];
    assert n in nodes && n.id in IdsOf(nodes);
    assert nodes[..i + 1][..i] == nodes[..i];
    assert IdsOf(nodes[..i + 1]) <= IdsOf(nodes);
  }

  lemma HeaviestExtends(best: Node, n: Node, selected: Node, seen: seq<Node>, was: map<int, int>, now: map<int, int>)
    requires StrictOrder(Prefer) && forall m | m in seen :: m.id != n.id
    requires forall a: Node, b: Node | a.id != b.id :: Prefer(a, b) || Prefer(b, a)
    requires forall id | id != n.id :: Get(now, id) == Get(was, id)
    requires seen != [] ==> IsHeaviest(best, seen, was)
    requires selected ==
             if seen == [] || Get(now, n.id) > Get(was, best.id)
                || (Get(now, n.id) == Get(was, best.id) && Prefer(n, best)) then n else best
    ensures IsHeaviest(selected, seen + [n], now)
  {
    hide TrafficPressure, CapacityPressure, EffectiveWeight;
  }

  lemma RaisedSame(a: map<int, int>, b: map<int, int>, nodes: seq<Node>)
    requires b.Keys == a.Keys + IdsOf(nodes) && forall id :: Get(a, id) == Get(b, id)
    ensures Raised(a, nodes) == Raised(b, nodes)
  {
  }
}
