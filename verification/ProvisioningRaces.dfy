/** Creations of automatic proxies that overlap: each looks its port up and inserts its row later, and others change the
    table at any time (internal/entitlement/service.go, createAutoProvisionedProxy). */
module ProvisioningRaces {
  import opened Common
  import opened AutoProvisioning

  /** The table and the rows that creations under way are about to insert. */
  datatype Shared = Shared(table: Table, chosen: map<nat, Proxy>)

  datatype Step =
    | LookUp(creation: nat, userID: int, node: int, port: int)
    | InsertRow(creation: nat)
    | Other(change: Change)

  ghost predicate Enabled(s: Shared, step: Step) {
    match step
    case LookUp(creation, userID, _, port) => creation !in s.chosen && FirstFree(s.table, userID, port)
    case InsertRow(creation) => creation in s.chosen
    case Other(_) => true
  }

  function Do(s: Shared, step: Step): Shared {
    match step
    case LookUp(creation, userID, node, port) => s.(chosen := s.chosen[creation := AutoProxy(userID, node, port)])
    case InsertRow(creation) =>
      if creation in s.chosen then Shared(Inserted(s.table, s.chosen[creation]), s.chosen - {creation}) else s
    case Other(change) => s.(table := Changed(s.table, change))
  }

  function After(s: Shared, steps: seq<Step>): Shared {
    if steps == [] then s else Do(After(s, steps[..|steps| - 1]), steps[|steps| - 1])
  }

  ghost predicate CanRun(s: Shared, steps: seq<Step>) {
    steps == [] ||
    (CanRun(s, steps[..|steps| - 1]) && Enabled(After(s, steps[..|steps| - 1]), steps[|steps| - 1]))
  }

  /** The row or port that the step puts into the table is held by no other row, seen or unseen. */
  ghost predicate PutsFreePort(s: Shared, step: Step) {
    match step
    case InsertRow(creation) => creation in s.chosen ==> forall id :: !HasPort(s.table, id, s.chosen[creation].port)
    case Other(Insert(proxy)) => forall id :: !HasPort(s.table, id, proxy.port)
    case Other(Edit(edited, port)) => edited in s.table.proxies ==> forall id | id != edited :: !HasPort(s.table, id, port)
    case _ => true
  }

  lemma EditKeepsUniquePorts(t: Table, edited: int, port: int)
    requires UniquePorts(t) && edited in t.proxies
    ensures UniquePorts(Changed(t, Edit(edited, port))) <==> forall id | id != edited :: !HasPort(t, id, port)
  {
    var after := Changed(t, Edit(edited, port));
    assert after.proxies.Keys == t.proxies.Keys;
    forall a | a in t.proxies && a != edited ensures after.proxies[a] == t.proxies[a] {
    }
    if a :| a != edited && HasPort(t, a, port) {
      assert after.proxies[a].port == after.proxies[edited].port;
    } else {
      forall a | a in t.proxies && a != edited ensures after.proxies[a].port != port {
        assert !HasPort(t, a, port);
      }
    }
  }

  lemma StepKeepsUniquePorts(s: Shared, step: Step)
    requires SoundTable(s.table) && UniquePorts(s.table)
    ensures SoundTable(Do(s, step).table) && (UniquePorts(Do(s, step).table) <==> PutsFreePort(s, step))
  {
    match step
    case InsertRow(creation) => if creation in s.chosen { InsertionKeepsUniquePorts(s.table, s.chosen[creation]); }
    case Other(Insert(proxy)) => InsertionKeepsUniquePorts(s.table, proxy);
    case Other(Edit(edited, port)) => if edited in s.table.proxies { EditKeepsUniquePorts(s.table, edited, port); }
    case Other(Delete(ids)) =>
    case _ =>
  }

  lemma {:induction false} RunKeepsSound(s: Shared, steps: seq<Step>)
    requires SoundTable(s.table)
    ensures SoundTable(After(s, steps).table)
  {
    if steps != [] {
      RunKeepsSound(s, steps[..|steps| - 1]);
    }
  }

  ghost predicate UniqueAt(s: Shared, steps: seq<Step>, k: nat)
    requires k <= |steps|
  {
    UniquePorts(After(s, steps[..k]).table)
  }

  ghost predicate PutsFreePortAt(s: Shared, steps: seq<Step>, k: nat)
    requires k < |steps|
  {
    PutsFreePort(After(s, steps[..k]), steps[k])
  }

  lemma UniqueNext(s: Shared, steps: seq<Step>, k: nat)
    requires SoundTable(s.table) && k < |steps| && UniqueAt(s, steps, k)
    ensures UniqueAt(s, steps, k + 1) <==> PutsFreePortAt(s, steps, k)
  {
    hide UniquePorts, PutsFreePort, SoundTable, Do;
    assert steps[..k + 1][..k] == steps[..k];
    RunKeepsSound(s, steps[..k]);
    StepKeepsUniquePorts(After(s, steps[..k]), steps[k]);
  }

  /** The exact condition, over every interleaving of creations, rebuilds and other changes: ports are unique at every
      moment if and only if each insertion and edit finds its port held by no other row of the table when it comes,
      whatever the look-up saw before. */
  lemma UniqueThroughoutExactlyWhen(s: Shared, steps: seq<Step>)
    requires SoundTable(s.table) && UniquePorts(s.table)
    ensures (forall k: nat | k <= |steps| :: UniqueAt(s, steps, k)) <==>
            (forall k: nat | k < |steps| :: PutsFreePortAt(s, steps, k))
  {
    hide UniqueAt, PutsFreePortAt;
    forall k: nat | k < |steps| && (forall i: nat | i <= |steps| :: UniqueAt(s, steps, i)) ensures PutsFreePortAt(s, steps, k) {
      assert UniqueAt(s, steps, k) && UniqueAt(s, steps, k + 1);
      UniqueNext(s, steps, k);
    }
    if forall k: nat | k < |steps| :: PutsFreePortAt(s, steps, k) {
      forall k: nat | k <= |steps| ensures UniqueAt(s, steps, k) {
        UniqueUpTo(s, steps, k);
      }
    }
  }

  lemma {:induction false} UniqueUpTo(s: Shared, steps: seq<Step>, k: nat)
    requires SoundTable(s.table) && UniquePorts(s.table) && k <= |steps|
    requires forall i: nat | i < |steps| :: PutsFreePortAt(s, steps, i)
    ensures UniqueAt(s, steps, k)
  {
    hide PutsFreePortAt;
    if k > 0 {
      UniqueUpTo(s, steps, k - 1);
      UniqueNext(s, steps, k - 1);
    } else {
      assert steps[..0] == [];
    }
  }

  // ---- One overlapped creation ----

  /** What others do between the look-up and the insertion of a creation, as changes of the table. */
  function ChangesOf(s: Shared, steps: seq<Step>): seq<Change> {
    if steps == [] then []
    else
      var init, step := steps[..|steps| - 1], steps[|steps| - 1];
      ChangesOf(s, init) +
      match step
      case LookUp(_, _, _, _) => []
      case InsertRow(creation) =>
        var chosen := After(s, init).chosen;
        if creation in chosen then [Insert(chosen[creation])] else []
      case Other(change) => [change]
  }

  lemma {:induction false} StepsAreChanges(s: Shared, steps: seq<Step>)
    ensures After(s, steps).table == ChangedBy(s.table, ChangesOf(s, steps))
  {
    if steps != [] {
      var init := steps[..|steps| - 1];
      StepsAreChanges(s, init);
      var more := ChangesOf(s, steps);
      if more != ChangesOf(s, init) {
        assert more[..|more| - 1] == ChangesOf(s, init);
      }
    }
  }

  lemma {:induction false} ChoiceStays(s: Shared, steps: seq<Step>, creation: nat)
    requires creation in s.chosen && forall step | step in steps :: step.Other? || step.creation != creation
    ensures creation in After(s, steps).chosen && After(s, steps).chosen[creation] == s.chosen[creation]
  {
    if steps != [] {
      assert steps[|steps| - 1] in steps;
      ChoiceStays(s, steps[..|steps| - 1], creation);
    }
  }

  /** One creation whose look-up and insertion lie any steps of others apart: ports stay unique if and only if no proxy of
      a deleted user holds its port and nothing done in between took it. */
  lemma OverlapIsHarmlessExactlyWhen(s: Shared, creation: nat, userID: int, node: int, port: int, steps: seq<Step>)
    requires SoundTable(s.table) && Enabled(s, LookUp(creation, userID, node, port))
    requires forall step | step in steps :: step.Other? || step.creation != creation
    requires UniquePorts(After(Do(s, LookUp(creation, userID, node, port)), steps).table)
    ensures var before := After(Do(s, LookUp(creation, userID, node, port)), steps);
            UniquePorts(Do(before, InsertRow(creation)).table) <==>
              !OrphanRemains(s.table, before.table, port) && !TakenMeanwhile(s.table, before.table, port)
  {
    var looked := Do(s, LookUp(creation, userID, node, port));
    ChoiceStays(looked, steps, creation);
    StepsAreChanges(looked, steps);
    var before := After(looked, steps);
    hide UniquePorts, OrphanRemains, TakenMeanwhile, FirstFree, ChangesOf, ChangedBy;
    CreationKeepsUniquePorts(s.table, ChangesOf(looked, steps), Do(before, InsertRow(creation)).table, userID, node, port);
  }

  /** Two creations that look their ports up before either inserts its row take the same port, whenever they would each
      take it alone; for one user they always do. So ports can collide without any proxy of a deleted user. */
  lemma OverlappingCreationsCollide(t: Table, first: int, second: int, nodes: (int, int), port: int)
    requires SoundTable(t) && UniquePorts(t) && NoOrphans(t) && first in t.users && second in t.users
    requires FirstFree(t, first, port) && FirstFree(t, second, port)
    ensures var steps := [LookUp(0, first, nodes.0, port), LookUp(1, second, nodes.1, port), InsertRow(0), InsertRow(1)];
            var after := After(Shared(t, map[]), steps).table;
            CanRun(Shared(t, map[]), steps) && NoOrphans(after) && !UniquePorts(after)
  {
    hide FirstFree;
    var s0 := Shared(t, map[]);
    var a, b := LookUp(0, first, nodes.0, port), LookUp(1, second, nodes.1, port);
    RunTwo(s0, a, b);
    var s2 := Do(Do(s0, a), b);
    var steps := [a, b] + [InsertRow(0)];
    assert steps[..2] == [a, b];
    var s3 := Do(s2, InsertRow(0));
    assert After(s0, steps) == s3 && CanRun(s0, steps);
    var all := steps + [InsertRow(1)];
    assert all[..3] == steps;
    var after := Do(s3, InsertRow(1)).table;
    assert all == [a, b, InsertRow(0), InsertRow(1)];
    assert After(s0, all).table == after && CanRun(s0, all);
    var x, y := t.next, t.next + 1;
    assert x !in t.proxies && y !in t.proxies;
    assert after.proxies == t.proxies[x := AutoProxy(first, nodes.0, port)][y := AutoProxy(second, nodes.1, port)];
    assert after.proxies[x].port == after.proxies[y].port;
    forall id | id in after.proxies ensures Visible(after, id) {
      assert id in t.proxies ==> Visible(t, id);
    }
  }

  lemma RunTwo(s: Shared, a: Step, b: Step)
    requires Enabled(s, a) && Enabled(Do(s, a), b)
    ensures CanRun(s, [a, b]) && After(s, [a, b]) == Do(Do(s, a), b)
  {
    assert [a, b][..1] == [a] && [a][..0] == [];
    assert After(s, [a]) == Do(s, a) && CanRun(s, [a]);
  }
}
