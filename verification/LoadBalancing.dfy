/** Selecting nodes for a user: availability, strategies, several nodes at once, and independence
    from the order in which nodes are listed (internal/node/load_balancer.go). */
module LoadBalancing {
  import opened Common
  import opened Sorting
  import opened NodeSelection
  import opened NodeOrder

  /** Same nodes, possibly listed in another order. */
  ghost predicate SameNodes(a: seq<Node>, b: seq<Node>) {
    multiset(a) == multiset(b)
  }

  lemma SameNodesMembers(a: seq<Node>, b: seq<Node>)
    requires SameNodes(a, b)
    ensures |a| == |b| && IdsOf(a) == IdsOf(b) && forall n :: n in a <==> n in b
  {
    InSame(a, b);
  }

  lemma {:induction false} GainTotalPermute(a: seq<Node>, b: seq<Node>, id: int)
    requires SameNodes(a, b)
    ensures GainOf(a, id) == GainOf(b, id) && TotalWeight(a) == TotalWeight(b)
    decreases |a|
  {
    hide EffectiveWeight, GainOf, TotalWeight;
    InSame(a, b);
    if a != [] {
      assert a[0] in b;
      var i :| 0 <= i < |b| && b[i] == a[0];
      GainTotalRemove(a, 0, id);
      GainTotalRemove(b, i, id);
      RemoveAt(a, 0);
      RemoveAt(b, i);
      GainTotalPermute(a[..0] + a[0 + 1..], b[..i] + b[i + 1..], id);
    }
  }

  lemma {:induction false} GainTotalRemove(b: seq<Node>, i: nat, id: int)
    requires i < |b|
    ensures GainOf(b, id) == GainOf(b[..i] + b[i + 1..], id) + (if b[i].id == id then EffectiveWeight(b[i]) else 0)
    ensures TotalWeight(b) == TotalWeight(b[..i] + b[i + 1..]) + EffectiveWeight(b[i])
    decreases |b|
  {
    hide EffectiveWeight;
    var rest := b[..i] + b[i + 1..];
    if i == |b| - 1 {
      assert rest == b[..i];
    } else {
      var front := b[..|b| - 1];
      GainTotalRemove(front, i, id);
      assert rest[..|rest| - 1] == front[..i] + front[i + 1..];
    }
  }

  lemma HeaviestUnique(n: Node, m: Node, a: seq<Node>, b: seq<Node>, raised: map<int, int>)
    requires SameNodes(a, b) && IsHeaviest(n, a, raised) && IsHeaviest(m, b, raised)
    ensures n == m
  {
    hide TrafficPressure, CapacityPressure;
    PreferIsStrictTotal();
    SameNodesMembers(a, b);
  }

  /** Weighted selection sees a set of nodes: from the same weights, any two listings of it lead to the
      same choice and the same new weights. */
  lemma WeightedSelectionIgnoresOrder(before: map<int, int>, a: seq<Node>, b: seq<Node>, n: Node, m: Node,
                                      afterA: map<int, int>, afterB: map<int, int>)
    requires SameNodes(a, b) && Turn(before, a, n, afterA) && Turn(before, b, m, afterB)
    ensures n == m && afterA == afterB
  {
    hide EffectiveWeight, Prefer, Raised, GainOf, IsHeaviest, SameNodes;
    GainTotalPermute(a, b, 0);
    RaisedIgnoresOrder(before, a, b);
    HeaviestUnique(n, m, a, b, Raised(before, a));
  }

  lemma RaisedIgnoresOrder(before: map<int, int>, a: seq<Node>, b: seq<Node>)
    requires SameNodes(a, b)
    ensures Raised(before, a) == Raised(before, b)
  {
    hide EffectiveWeight, GainOf, SameNodes;
    SameNodesMembers(a, b);
    forall id ensures GainOf(a, id) == GainOf(b, id) { GainTotalPermute(a, b, id); }
  }

  // ---- Least connections ----

  ghost predicate IsLeastLoaded(n: Node, nodes: seq<Node>) {
    n in nodes && forall m | m in nodes && m != n ::
      n.currentUsers < m.currentUsers || (n.currentUsers == m.currentUsers && Prefer(n, m))
  }

  lemma LeastLoadedIgnoresOrder(a: seq<Node>, b: seq<Node>, n: Node, m: Node)
    requires SameNodes(a, b) && IsLeastLoaded(n, a) && IsLeastLoaded(m, b)
    ensures n == m
  {
    hide TrafficPressure, CapacityPressure;
    PreferIsStrictTotal();
    SameNodesMembers(a, b);
  }

  method SelectLeastConnections(nodes: seq<Node>) returns (r: Result<Node, SelectError>)
    requires DistinctIds(nodes)
    ensures nodes == [] ==> r == Err(NoAvailableNodes)
    ensures nodes != [] ==> r.Ok? && IsLeastLoaded(r.value, nodes)
  {
    hide TrafficPressure, CapacityPressure;
    if nodes == [] {
      return Err(NoAvailableNodes);
    }
    PreferIsStrictTotal();
    var minNode := nodes[0];
    var minConnections := nodes[0].currentUsers;
    for i := 1 to |nodes|
      invariant minConnections == minNode.currentUsers && IsLeastLoaded(minNode, nodes[..i])
    {
      var n := nodes[i];
      assert n !in nodes[..i];
      assert nodes[..i + 1] == nodes[..i] + [n];
      if n.currentUsers < minConnections {
        minConnections := n.currentUsers;
        minNode := n;
      } else if n.currentUsers == minConnections && Prefer(n, minNode) {
        minNode := n;
      }
    }
    assert nodes[..|nodes|] == nodes;
    return Ok(minNode);
  }

  // ---- Availability ----

  predicate IsAvailable(n: Node, excluded: seq<int>) {
    n.status.Online? && !(n.maxUsers > 0 && n.currentUsers >= n.maxUsers) && n.id !in excluded
  }

  lemma AvailableMeans(excluded: seq<int>)
    ensures forall n: Node :: IsAvailable(n, excluded) <==>
              n.status == Online && n.id !in excluded && (n.maxUsers <= 0 || n.currentUsers < n.maxUsers)
  {
  }

  function FilterNodes(nodes: seq<Node>, excluded: seq<int>): (r: seq<Node>)
    ensures forall n :: n in r <==> n in nodes && n.id !in excluded
    ensures DistinctIds(nodes) ==> DistinctIds(r)
    ensures |r| <= |nodes|
  {
    if nodes == [] then []
    else
      var front, last := nodes[..|nodes| - 1], nodes[|nodes| - 1];
      assert nodes == front + [last];
      var rest := FilterNodes(front, excluded);
      assert DistinctIds(nodes) ==> forall n | n in rest :: n.id != last.id;
      if last.id in excluded then rest else rest + [last]
  }

  /** Filtering keeps the order of the list. */
  lemma {:induction false} FilterKeepsOrder(nodes: seq<Node>, excluded: seq<int>, i: nat, j: nat)
    requires i < j < |FilterNodes(nodes, excluded)|
    ensures exists k, l | 0 <= k < l < |nodes| ::
              nodes[k] == FilterNodes(nodes, excluded)[i] && nodes[l] == FilterNodes(nodes, excluded)[j]
  {
    var front, last := nodes[..|nodes| - 1], nodes[|nodes| - 1];
    var rest := FilterNodes(front, excluded);
    if j < |rest| {
      FilterKeepsOrder(front, excluded, i, j);
      var k, l :| 0 <= k < l < |front| && front[k] == rest[i] && front[l] == rest[j];
      assert nodes[k] == rest[i] && nodes[l] == rest[j];
    } else {
      assert rest[i] in front;
      var k :| 0 <= k < |front| && front[k] == rest[i];
      assert nodes[k] == rest[i] && nodes[|nodes| - 1] == last;
    }
  }

  /** Candidates in preference order; `listed` is the repository's answer. */
  method GetAvailableNodes(listed: Option<seq<Node>>, excluded: seq<int>) returns (r: Result<seq<Node>, SelectError>)
    requires listed.Some? ==> DistinctIds(listed.value)
    ensures r.Ok? <==> listed.Some?
    ensures listed.None? ==> r == Err(RepositoryError)
    ensures r.Ok? ==> IsCandidateList(r.value, listed.value, excluded)
  {
    if listed.None? {
      return Err(RepositoryError);
    }
    var nodes := CollectAvailable(listed.value, excluded);
    DistinctIdsSeparated(nodes);
    PreferIsStrictTotal();
    SortSorted(Prefer, nodes);
    return Ok(Sort(Prefer, nodes));
  }

  method CollectAvailable(listed: seq<Node>, excluded: seq<int>) returns (nodes: seq<Node>)
    requires DistinctIds(listed)
    ensures multiset(nodes) == AvailableBag(listed, excluded)
    ensures DistinctIds(nodes) && forall n | n in nodes :: n in listed
  {
    nodes := [];
    for i := 0 to |listed|
      invariant multiset(nodes) == AvailableBag(listed[..i], excluded)
      invariant DistinctIds(nodes) && forall n | n in nodes :: n in listed[..i]
    {
      var n := listed[i];
      assert listed[..i + 1][..i] == listed[..i];
      assert forall m | m in listed[..i] :: m.id != n.id;
      if IsAvailable(n, excluded) {
        nodes := nodes + [n];
      }
    }
    assert listed[..|listed|] == listed;
  }

  ghost function AvailableBag(listed: seq<Node>, excluded: seq<int>): multiset<Node> {
    if listed == [] then multiset{}
    else AvailableBag(listed[..|listed| - 1], excluded)
         + (if IsAvailable(listed[|listed| - 1], excluded) then multiset{listed[|listed| - 1]} else multiset{})
  }

  /** Exactly the available nodes, in preference order. */
  ghost predicate IsCandidateList(r: seq<Node>, listed: seq<Node>, excluded: seq<int>) {
    multiset(r) == AvailableBag(listed, excluded) && Sorted(Prefer, r)
  }

  lemma {:induction false} AvailableBagMembers(listed: seq<Node>, excluded: seq<int>, n: Node)
    requires DistinctIds(listed)
    ensures AvailableBag(listed, excluded)[n] == if n in listed && IsAvailable(n, excluded) then 1 else 0
  {
    if listed != [] {
      var front := listed[..|listed| - 1];
      AvailableBagMembers(front, excluded, n);
      assert listed == front + [listed[|listed| - 1]];
    }
  }

  /** A candidate list holds each available node once and nothing else, and ascends in traffic, crowding, users, weight and
      ID. */
  lemma CandidatesAre(r: seq<Node>, listed: seq<Node>, excluded: seq<int>)
    requires DistinctIds(listed) && IsCandidateList(r, listed, excluded)
    ensures DistinctIds(r)
    ensures forall n :: n in r <==> n in listed && IsAvailable(n, excluded)
    ensures forall n :: n in r <==>
              n in listed && n.status == Online && n.id !in excluded && (n.maxUsers <= 0 || n.currentUsers < n.maxUsers)
    ensures forall i, j | 0 <= i < j < |r| :: Before(r[i], r[j])
  {
    AvailableMeans(excluded);
    hide Prefer, IsAvailable, Before;
    forall n ensures multiset(r)[n] == if n in listed && IsAvailable(n, excluded) then 1 else 0 {
      AvailableBagMembers(listed, excluded, n);
    }
    forall n ensures n in r <==> n in listed && IsAvailable(n, excluded) {
      assert n in r <==> multiset(r)[n] > 0;
    }
    forall i, j | 0 <= i < j < |r| ensures r[i].id != r[j].id {
      assert multiset(r)[r[j]] <= 1;
      CountedTwice(r, i, j);
      assert r[i] in listed && r[j] in listed;
    }
    DistinctIdsSeparated(r);
    forall i, j | 0 <= i < j < |r| ensures Before(r[i], r[j]) {
      var a, b := r[i], r[j];
      assert !Prefer(b, a);
      assert a != b && a in r && b in r;
      PreferIsBefore(a, b);
    }
  }

  /** Candidates depend on which nodes the repository lists, not on the order it lists them in. */
  lemma CandidatesIgnoreOrder(x: seq<Node>, y: seq<Node>, a: seq<Node>, b: seq<Node>, excluded: seq<int>)
    requires DistinctIds(a) && DistinctIds(b) && SameNodes(a, b)
    requires IsCandidateList(x, a, excluded) && IsCandidateList(y, b, excluded)
    ensures x == y
  {
    hide Prefer, IsAvailable;
    SameNodesMembers(a, b);
    forall n ensures multiset(x)[n] == multiset(y)[n] {
      AvailableBagMembers(a, excluded, n);
      AvailableBagMembers(b, excluded, n);
    }
    CandidatesAre(x, a, excluded);
    DistinctIdsSeparated(x);
    SortedRearrangementUnique(Prefer, x, y);
  }

  // ---- Several nodes at once ----

  /** Geographic selection is modelled without location data, where it takes the first candidate. */
  datatype Strategy = RoundRobin | LeastConnections | Weighted | Geographic

  /** An unknown or empty name falls back to round robin. */
  function StrategyNamed(name: string): Strategy {
    if name == "least-connections" then LeastConnections
    else if name == "weighted" then Weighted
    else if name == "geographic" then Geographic
    else RoundRobin
  }

  /** What a strategy goes by: the counter of round robin and the weights of weighted selection. */
  datatype Turns = Turns(counter: int, weights: map<int, int>)

  /** What the strategy of that name chooses among `left`, and what it remembers. */
  ghost predicate Chooses(name: string, left: seq<Node>, before: Turns, chosen: Node, after: Turns) {
    left != [] &&
    if name == "weighted" then Turn(before.weights, left, chosen, after.weights) && after.counter == before.counter
    else if name == "least-connections" then IsLeastLoaded(chosen, left) && after == before
    else if name == "geographic" then chosen == left[0] && after == before
    else chosen == left[before.counter % |left|] && after == before.(counter := (before.counter + 1) % 0x1_0000_0000_0000_0000)
  }

  function IdList(nodes: seq<Node>): (ids: seq<int>)
    ensures forall id :: id in ids <==> id in IdsOf(nodes)
  {
    if nodes == [] then []
    else
      var front := nodes[..|nodes| - 1];
      assert nodes == front + [nodes[|nodes| - 1]];
      IdList(front) + [nodes[|nodes| - 1].id]
  }

  /** Each node was chosen among the candidates left when its turn came. */
  ghost predicate ChosenInTurn(name: string, nodes: seq<Node>, excluded: seq<int>, selected: seq<Node>, turns: seq<Turns>) {
    && |turns| == |selected| + 1
    && forall i | 0 <= i < |selected| ::
         Chooses(name, FilterNodes(nodes, excluded + IdList(selected[..i])), turns[i], selected[i], turns[i + 1])
  }

  lemma ChosenNext(name: string, nodes: seq<Node>, excluded: seq<int>, selected: seq<Node>, turns: seq<Turns>, n: Node, t: Turns)
    requires ChosenInTurn(name, nodes, excluded, selected, turns)
    requires Chooses(name, FilterNodes(nodes, excluded + IdList(selected)), turns[|selected|], n, t)
    ensures ChosenInTurn(name, nodes, excluded, selected + [n], turns + [t])
  {
    hide Chooses, FilterNodes, IdList;
    var more := selected + [n];
    forall i | 0 <= i < |more|
      ensures Chooses(name, FilterNodes(nodes, excluded + IdList(more[..i])), (turns + [t])[i], more[i], (turns + [t])[i + 1]) {
      assert more[..i] == selected[..i];
      if i == |selected| { assert selected[..i] == selected; }
    }
  }

  const UINT64: int := 0x1_0000_0000_0000_0000

  class LoadBalancer {
    var counter: int
    const weighted: WeightedStrategy

    ghost predicate Valid()
      reads this
    {
      0 <= counter < UINT64
    }

    constructor ()
      ensures Valid() && fresh(weighted)
    {
      counter := 0;
      weighted := new WeightedStrategy();
    }

    method Select(strategy: Strategy, nodes: seq<Node>) returns (r: Result<Node, SelectError>)
      requires Valid() && DistinctIds(nodes)
      modifies this, weighted
      ensures Valid()
      ensures nodes == [] ==> r == Err(NoAvailableNodes)
      ensures nodes != [] ==> r.Ok? && r.value in nodes
      ensures nodes != [] && strategy.RoundRobin? ==>
                r.value == nodes[old(counter) % |nodes|] && counter == (old(counter) + 1) % UINT64
      ensures nodes != [] && strategy.LeastConnections? ==> IsLeastLoaded(r.value, nodes)
      ensures nodes != [] && strategy.Geographic? ==> r.value == nodes[0]
      ensures nodes != [] && strategy.Weighted? ==> Turn(old(weighted.weights), nodes, r.value, weighted.weights)
      ensures !strategy.Weighted? ==> weighted.weights == old(weighted.weights)
      ensures !strategy.RoundRobin? ==> counter == old(counter)
    {
      match strategy
      case RoundRobin =>
        if nodes == [] {
          return Err(NoAvailableNodes);
        }
        var idx := counter;
        counter := (counter + 1) % UINT64;
        return Ok(nodes[idx % |nodes|]);
      case LeastConnections =>
        r := SelectLeastConnections(nodes);
      case Weighted =>
        r := weighted.Select(nodes);
      case Geographic =>
        if nodes == [] {
          return Err(NoAvailableNodes);
        }
        return Ok(nodes[0]);
    }

    /** With at least one candidate and a positive count: as many different candidates as were asked for
        or as there are. A negative count is a panic in the program (a slice of negative capacity). */
    method SelectNodes(listed: Option<seq<Node>>, count: int, strategyName: string, excluded: seq<int>)
      returns (r: Result<seq<Node>, SelectError>, ghost candidates: seq<Node>, ghost turns: seq<Turns>)
      requires Valid() && count >= 0
      requires listed.Some? ==> DistinctIds(listed.value)
      modifies this, weighted
      ensures Valid()
      ensures listed.None? ==> r == Err(RepositoryError)
      ensures listed.Some? && (count == 0 || forall n | n in listed.value :: !IsAvailable(n, excluded)) ==>
                r == Err(NoAvailableNodes)
      ensures listed.Some? && count > 0 && (exists n | n in listed.value :: IsAvailable(n, excluded)) ==>
                && r.Ok? && DistinctIds(r.value)
                && (forall n | n in r.value :: n in listed.value && IsAvailable(n, excluded))
                && |r.value| == Min(count, |set n | n in listed.value && IsAvailable(n, excluded)|)
      ensures r.Ok? ==>
                && listed.Some? && IsCandidateList(candidates, listed.value, excluded)
                && ChosenInTurn(strategyName, candidates, excluded, r.value, turns)
                && turns[0] == Turns(old(counter), old(weighted.weights))
                && turns[|r.value|] == Turns(counter, weighted.weights)
      ensures r.Err? ==> counter == old(counter) && weighted.weights == old(weighted.weights)
    {
      hide Prefer, Before, Chooses;
      candidates, turns := [], [];
      var available := GetAvailableNodes(listed, excluded);
      if available.Err? {
        return Err(RepositoryError), candidates, turns;
      }
      var nodes := available.value;
      candidates := nodes;
      CandidatesAre(nodes, listed.value, excluded);
      assert (set n | n in listed.value && IsAvailable(n, excluded)) == (set n | n in nodes);
      NodesCounted(nodes);
      if nodes == [] {
        assert forall n | n in listed.value :: !IsAvailable(n, excluded) by {
          forall n | n in listed.value ensures !IsAvailable(n, excluded) { assert n !in nodes; }
        }
        return Err(NoAvailableNodes), candidates, turns;
      }
      assert nodes[0] in listed.value && IsAvailable(nodes[0], excluded);
      var limit := if count > |nodes| then |nodes| else count;
      var selected;
      selected, turns := SelectUpTo(nodes, limit, strategyName, excluded);
      if selected == [] {
        return Err(NoAvailableNodes), candidates, turns;
      }
      return Ok(selected), candidates, turns;
    }

    /** The loop of SelectNodes: each round selects among the candidates not selected yet. */
    method SelectUpTo(nodes: seq<Node>, limit: int, strategyName: string, excluded: seq<int>)
      returns (selected: seq<Node>, ghost turns: seq<Turns>)
      requires Valid() && 0 <= limit <= |nodes|
      requires DistinctIds(nodes) && forall n | n in nodes :: n.id !in excluded
      modifies this, weighted
      ensures Valid() && |selected| == limit
      ensures DistinctIds(selected) && forall n | n in selected :: n in nodes
      ensures ChosenInTurn(strategyName, nodes, excluded, selected, turns)
      ensures turns[0] == Turns(old(counter), old(weighted.weights)) && turns[limit] == Turns(counter, weighted.weights)
    {
      hide Prefer, Turn, IsLeastLoaded, Chooses, ChosenInTurn, DistinctIds, FilterNodes, IdList;
      NothingSelected(strategyName, nodes, excluded, Turns(counter, weighted.weights));
      selected, turns := [], [Turns(counter, weighted.weights)];
      var excludeIDs := excluded;
      var i := 0;
      while i < limit
        invariant 0 <= i <= limit && |selected| == i && |turns| == i + 1 && Valid()
        invariant DistinctIds(selected) && forall n | n in selected :: n in nodes
        invariant excludeIDs == excluded + IdList(selected)
        invariant ChosenInTurn(strategyName, nodes, excluded, selected, turns)
        invariant turns[0] == Turns(old(counter), old(weighted.weights)) && turns[i] == Turns(counter, weighted.weights)
      {
        var filtered := FilterNodes(nodes, excludeIDs);
        assert DistinctIds(filtered);
        SomeNodeLeft(nodes, selected, filtered, excluded, excludeIDs);
        var node := SelectNamed(strategyName, filtered);
        SelectedNext(nodes, excluded, selected, node.value);
        ChosenNext(strategyName, nodes, excluded, selected, turns, node.value, Turns(counter, weighted.weights));
        turns := turns + [Turns(counter, weighted.weights)];
        ListedNext(selected, node.value);
        selected := selected + [node.value];
        excludeIDs := excludeIDs + [node.value.id];
        i := i + 1;
      }
    }

    /** An unknown or empty name means round robin. */
    method SelectNamed(name: string, nodes: seq<Node>) returns (r: Result<Node, SelectError>)
      requires Valid() && DistinctIds(nodes) && nodes != []
      modifies this, weighted
      ensures Valid() && r.Ok? && r.value in nodes
      ensures Chooses(name, nodes, Turns(old(counter), old(weighted.weights)), r.value, Turns(counter, weighted.weights))
    {
      hide Turn, IsLeastLoaded;
      r := Select(StrategyNamed(name), nodes);
    }
  }

  lemma NothingSelected(name: string, nodes: seq<Node>, excluded: seq<int>, t: Turns)
    ensures ChosenInTurn(name, nodes, excluded, [], [t]) && DistinctIds([]) && IdList([]) == []
  {
  }

  lemma SelectedNext(nodes: seq<Node>, excluded: seq<int>, selected: seq<Node>, n: Node)
    requires DistinctIds(selected) && n in FilterNodes(nodes, excluded + IdList(selected))
    ensures n in nodes && DistinctIds(selected + [n])
  {
    assert n.id !in IdsOf(selected);
    assert forall m | m in selected :: m.id in IdsOf(selected);
  }

  lemma ListedNext(selected: seq<Node>, n: Node)
    ensures IdList(selected + [n]) == IdList(selected) + [n.id]
  {
    assert (selected + [n])[..|selected|] == selected;
  }

  lemma NodesCounted(nodes: seq<Node>)
    requires DistinctIds(nodes)
    ensures |set n | n in nodes| == |nodes|
  {
    DistinctSize(nodes);
  }

  lemma SomeNodeLeft(nodes: seq<Node>, selected: seq<Node>, filtered: seq<Node>, excluded: seq<int>,
                     excludeIDs: seq<int>)
    requires DistinctIds(nodes) && DistinctIds(selected) && |selected| < |nodes|
    requires forall n | n in nodes :: n.id !in excluded
    requires forall id :: id in excludeIDs <==> id in excluded || id in IdsOf(selected)
    requires forall n :: n in filtered <==> n in nodes && n.id !in excludeIDs
    ensures filtered != []
  {
    if filtered == [] {
      IdsCounted(nodes);
      IdsCounted(selected);
      assert IdsOf(nodes) <= IdsOf(selected) by {
        forall id | id in IdsOf(nodes) ensures id in IdsOf(selected) {
          var n :| n in nodes && n.id == id;
          assert n !in filtered;
        }
      }
      SubsetSize(IdsOf(nodes), IdsOf(selected));
    }
  }

  lemma {:induction false} IdsCounted(nodes: seq<Node>)
    requires DistinctIds(nodes)
    ensures |IdsOf(nodes)| == |nodes|
  {
    if nodes != [] {
      var front, last := nodes[..|nodes| - 1], nodes[|nodes| - 1];
      IdsCounted(front);
      assert nodes == front + [last];
      assert IdsOf(nodes) == IdsOf(front) + {last.id};
    }
  }
}
