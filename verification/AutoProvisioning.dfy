/** Port allocation and rebuilding of automatically provisioned proxies (internal/entitlement/service.go). */
module AutoProvisioning {
  import opened Common

  const PORT_MIN := 20000
  const PORT_MAX := 60000
  const TOTAL_PORTS := PORT_MAX - PORT_MIN + 1
  const PAGE: nat := 10000
  const AUTO_REMARK := "auto provisioned"

  datatype Proxy = Proxy(userID: int, nodeID: Option<int>, port: int, enabled: bool, remark: string)

  /** The proxy table with its next automatic ID, and the IDs of the existing users. */
  datatype Table = Table(proxies: map<int, Proxy>, next: int, users: set<int>)

  /** unicode.ToLower, as far as it leads to letters of ASCII that the remarks contain. */
  function LowerChar(c: char): char {
    if 'A' <= c <= 'Z' then c + ('a' - 'A') else if c == '\U{130}' then 'i' else c
  }

  function Lower(s: string): string {
    seq(|s|, i requires 0 <= i < |s| => LowerChar(s[i]))
  }

  predicate IsAutoProvisioned(p: Proxy) {
    var remark := Lower(Trim(p.remark));
    remark == "auto provisioned" || remark == "auto-provisioned"
  }

  /** The same letter, but for its case. */
  predicate SameLetter(c: char, t: char) {
    c == t || ('A' <= c <= 'Z' && c as int + 32 == t as int) || (c == '\U{130}' && t == 'i')
  }

  ghost predicate SpellsAt(remark: string, from: nat, text: string) {
    && from + |text| <= |remark| && forall k | 0 <= k < |text| :: SameLetter(remark[from + k], text[k])
  }

  /** Blanks, one of the two texts in any letter case, and blanks. */
  ghost predicate MarksAutomatic(remark: string) {
    exists from: nat | from + 16 <= |remark| ::
      && Blank(remark[..from]) && Blank(remark[from + 16..])
      && (SpellsAt(remark, from, "auto provisioned") || SpellsAt(remark, from, "auto-provisioned"))
  }

  /** Automatic is exactly a proxy with such a remark. */
  lemma AutomaticExactlyWhen(p: Proxy)
    ensures IsAutoProvisioned(p) <==> MarksAutomatic(p.remark)
  {
    hide *;
    var s := p.remark;
    if IsAutoProvisioned(p) {
      var i, j := TrimParts(s);
      LoweredRemark(p, s[i..j]);
      LowerSpells(s, i, j, "auto provisioned");
      LowerSpells(s, i, j, "auto-provisioned");
      TextsAre();
      MarkedAt(s, i);
    }
    if MarksAutomatic(s) {
      var from := WhereMarked(s);
      LoweredRemark(p, s[from..from + 16]);
      TextsAre();
      LowerSpells(s, from, from + 16, "auto provisioned");
      LowerSpells(s, from, from + 16, "auto-provisioned");
    }
  }

  lemma AutomaticIsMarked()
    ensures forall p :: IsAutoProvisioned(p) <==> MarksAutomatic(p.remark)
  {
    forall p ensures IsAutoProvisioned(p) <==> MarksAutomatic(p.remark) {
      AutomaticExactlyWhen(p);
    }
  }

  lemma TextsAre()
    ensures |"auto provisioned"| == 16 == |"auto-provisioned"|
    ensures LowerText("auto provisioned") && LowerText("auto-provisioned")
  {
  }

  lemma LoweredRemark(p: Proxy, trimmed: string)
    requires Trim(p.remark) == trimmed
    ensures IsAutoProvisioned(p) <==> Lower(trimmed) == "auto provisioned" || Lower(trimmed) == "auto-provisioned"
  {
  }

  lemma MarkedAt(s: string, from: nat)
    requires from + 16 <= |s| && Blank(s[..from]) && Blank(s[from + 16..])
    requires SpellsAt(s, from, "auto provisioned") || SpellsAt(s, from, "auto-provisioned")
    ensures MarksAutomatic(s)
  {
  }

  lemma WhereMarked(s: string) returns (from: nat)
    requires MarksAutomatic(s)
    ensures from + 16 <= |s| && Trim(s) == s[from..from + 16]
    ensures SpellsAt(s, from, "auto provisioned") || SpellsAt(s, from, "auto-provisioned")
  {
    hide Trim, Blank, IsSpace;
    from :| from + 16 <= |s| && Blank(s[..from]) && Blank(s[from + 16..])
            && (SpellsAt(s, from, "auto provisioned") || SpellsAt(s, from, "auto-provisioned"));
    var text := if SpellsAt(s, from, "auto provisioned") then "auto provisioned" else "auto-provisioned";
    assert SameLetter(s[from + 0], text[0]) && SameLetter(s[from + 15], text[15]);
    NoBlankSpelled(s[from], 'a');
    NoBlankSpelled(s[from + 15], 'd');
    TrimIs(s, from, from + 16);
  }

  lemma NoBlankSpelled(c: char, t: char)
    requires SameLetter(c, t) && 'a' <= t <= 'z'
    ensures !IsSpace(c)
  {
  }

  predicate LowerText(text: string) {
    forall k | 0 <= k < |text| :: 'a' <= text[k] <= 'z' || text[k] == ' ' || text[k] == '-'
  }

  lemma LowerSpells(s: string, i: nat, j: nat, text: string)
    requires LowerText(text) && i <= j <= |s|
    ensures Lower(s[i..j]) == text <==> j == i + |text| && SpellsAt(s, i, text)
  {
    var t := s[i..j];
    forall k | 0 <= k < |t| && k < |text| ensures LowerChar(t[k]) == text[k] <==> SameLetter(s[i + k], text[k]) {
      assert t[k] == s[i + k];
      SameLower(t[k], text[k]);
    }
    if Lower(t) == text {
      assert forall k | 0 <= k < |t| :: Lower(t)[k] == LowerChar(t[k]);
    }
    if j == i + |text| && SpellsAt(s, i, text) {
      assert forall k | 0 <= k < |text| :: Lower(t)[k] == text[k];
    }
  }

  lemma SameLower(c: char, t: char)
    requires 'a' <= t <= 'z' || t == ' ' || t == '-'
    ensures LowerChar(c) == t <==> SameLetter(c, t)
  {
  }

  lemma AutoRemark(p: Proxy)
    requires p.remark == AUTO_REMARK
    ensures IsAutoProvisioned(p)
  {
    assert Trim(AUTO_REMARK) == AUTO_REMARK;
    assert Lower(AUTO_REMARK) == AUTO_REMARK;
  }

  // ---- Ports ----

  /** GetByPort sees the proxies of no user and of existing users; those of deleted users are invisible to it. */
  predicate Visible(t: Table, id: int) {
    id in t.proxies && (t.proxies[id].userID == 0 || t.proxies[id].userID in t.users)
  }

  predicate Held(t: Table, port: int) {
    exists id :: id in t.proxies && Visible(t, id) && t.proxies[id].port == port
  }

  /** No two rows of the table share a port. */
  ghost predicate UniquePorts(t: Table) {
    forall a, b | a in t.proxies && b in t.proxies && a != b :: t.proxies[a].port != t.proxies[b].port
  }

  /** A proxy of a deleted user, which the port lookup does not see, holds the port. */
  ghost predicate OrphanHolds(t: Table, port: int) {
    exists id :: id in t.proxies && !Visible(t, id) && t.proxies[id].port == port
  }

  /** Go's remainder takes the sign of the dividend. */
  function GoMod(a: int, n: int): int
    requires n > 0
  {
    if a >= 0 then a % n else -((-a) % n)
  }

  /** The port tried at the given offset. */
  function PortAt(userID: int, offset: nat): int {
    var start := PORT_MIN + GoMod(userID, TOTAL_PORTS);
    PORT_MIN + GoMod(start - PORT_MIN + offset, TOTAL_PORTS)
  }

  /** For a non-negative user ID the offsets go once round the whole range, each port once. */
  lemma OffsetsCoverRange(userID: int, port: int)
    requires userID >= 0 && 20000 <= port <= 60000
    ensures forall a: nat :: PortAt(userID, a) == 20000 + (userID + a) % 40001
    ensures exists offset: nat | offset < TOTAL_PORTS :: PortAt(userID, offset) == port
    ensures forall a: nat, b: nat | a < b < TOTAL_PORTS :: PortAt(userID, a) != PortAt(userID, b)
    ensures forall a: nat :: PORT_MIN <= PortAt(userID, a) <= PORT_MAX
  {
    var first := userID % TOTAL_PORTS;
    DivModIs(first, TOTAL_PORTS, 0, first);
    forall a: nat ensures PortAt(userID, a) == PORT_MIN + (first + a) % TOTAL_PORTS == 20000 + (userID + a) % 40001 {
      ModAdd(first, userID, a, TOTAL_PORTS);
    }
    var offset := ModReaches(first, port - PORT_MIN, TOTAL_PORTS);
    assert PortAt(userID, offset) == port;
    forall a: nat, b: nat | a < b < TOTAL_PORTS ensures PortAt(userID, a) != PortAt(userID, b) {
      ModDifferent(first, a, b, TOTAL_PORTS);
    }
  }

  /** The first port tried lies in the range exactly for the user IDs whose Go remainder is not negative. */
  lemma FirstPortInRange(userID: int)
    ensures 20000 <= PortAt(userID, 0) <= 60000 <==> userID >= 0 || userID % 40001 == 0
  {
    if userID < 0 {
      var m := (-userID) % TOTAL_PORTS;
      assert -userID == (-userID) / TOTAL_PORTS * TOTAL_PORTS + m;
      assert userID == (-((-userID) / TOTAL_PORTS)) * TOTAL_PORTS - m;
    }
  }

  /** The first port in the user's order that nobody is seen to hold. */
  ghost predicate FirstFree(t: Table, userID: int, port: int) {
    exists k: nat | k < TOTAL_PORTS ::
      PortAt(userID, k) == port && !Held(t, port) && forall j: nat | j < k :: Held(t, PortAt(userID, j))
  }

  /** The proxy has the port, and belongs to nobody in particular or to a user that still exists. */
  predicate UserHolds(t: Table, id: int, port: int) {
    HasPort(t, id, port) && (t.proxies[id].userID == 0 || t.proxies[id].userID in t.users)
  }

  ghost predicate InUse(t: Table, port: int) {
    exists id :: UserHolds(t, id, port)
  }

  lemma HeldByUser(t: Table, port: int)
    ensures Held(t, port) <==> InUse(t, port)
  {
    if Held(t, port) {
      var id :| id in t.proxies && Visible(t, id) && t.proxies[id].port == port;
      assert UserHolds(t, id, port);
    }
  }

  // ---- What happens between a look-up and the insertion that follows it ----

  /** What others may do to the table meanwhile. No lock covers the two, and the database does not insist on unique
      ports. */
  datatype Change = Insert(proxy: Proxy) | Edit(id: int, port: int) | Delete(ids: set<int>) | SetUsers(users: set<int>)

  function Inserted(t: Table, p: Proxy): Table {
    Table(t.proxies[t.next := p], t.next + 1, t.users)
  }

  function Changed(t: Table, change: Change): Table {
    match change
    case Insert(proxy) => Inserted(t, proxy)
    case Edit(id, port) => if id in t.proxies then t.(proxies := t.proxies[id := t.proxies[id].(port := port)]) else t
    case Delete(ids) => t.(proxies := map id | id in t.proxies && id !in ids :: t.proxies[id])
    case SetUsers(users) => t.(users := users)
  }

  function ChangedBy(t: Table, changes: seq<Change>): Table {
    if changes == [] then t else Changed(ChangedBy(t, changes[..|changes| - 1]), changes[|changes| - 1])
  }

  lemma {:induction false} ChangesKeepSound(t: Table, changes: seq<Change>)
    requires SoundTable(t)
    ensures SoundTable(ChangedBy(t, changes)) && t.next <= ChangedBy(t, changes).next
  {
    if changes != [] {
      ChangesKeepSound(t, changes[..|changes| - 1]);
    }
  }

  lemma NothingChanged(t: Table)
    ensures ChangedBy(t, []) == t
  {
  }

  function AutoProxy(userID: int, node: int, port: int): Proxy {
    Proxy(userID, Some(node), port, true, AUTO_REMARK)
  }

  /** What creating an automatic proxy does: the port is looked up in `seen`, the row goes into `before`. */
  ghost predicate Created(seen: Table, before: Table, after: Table, userID: int, node: int, port: int) {
    FirstFree(seen, userID, port) && after == Inserted(before, AutoProxy(userID, node, port))
  }

  /** A row that had the port at the look-up, invisible to it, still has it. */
  ghost predicate OrphanRemains(seen: Table, before: Table, port: int) {
    exists id :: HasPort(seen, id, port) && !Visible(seen, id) && HasPort(before, id, port)
  }

  /** A row that did not have the port at the look-up has it now. */
  ghost predicate TakenMeanwhile(seen: Table, before: Table, port: int) {
    exists id :: !HasPort(seen, id, port) && HasPort(before, id, port)
  }

  predicate HasPort(t: Table, id: int, port: int) {
    id in t.proxies && t.proxies[id].port == port
  }

  /** Whatever others did between look-up and insertion, a creation keeps all ports unique if and only if no proxy of a
      deleted user holds the chosen one and nobody has taken it meanwhile. */
  lemma CreationKeepsUniquePorts(seen: Table, changes: seq<Change>, after: Table, userID: int, node: int, port: int)
    requires SoundTable(seen) && UniquePorts(ChangedBy(seen, changes))
    requires Created(seen, ChangedBy(seen, changes), after, userID, node, port)
    ensures var before := ChangedBy(seen, changes);
            UniquePorts(after) <==> !OrphanRemains(seen, before, port) && !TakenMeanwhile(seen, before, port)
    ensures changes == [] ==> (UniquePorts(after) <==> !OrphanHolds(seen, port))
  {
    var before := ChangedBy(seen, changes);
    ChangesKeepSound(seen, changes);
    InsertionKeepsUniquePorts(before, AutoProxy(userID, node, port));
    hide ChangedBy;
    if id :| HasPort(before, id, port) {
      assert HasPort(seen, id, port) ==> !Visible(seen, id);
    }
    if changes == [] {
      NothingChanged(seen);
      assert !TakenMeanwhile(seen, before, port);
      assert OrphanHolds(seen, port) <==> OrphanRemains(seen, before, port);
    }
  }

  /** An insertion keeps all ports unique if and only if no row has the port. */
  lemma InsertionKeepsUniquePorts(before: Table, p: Proxy)
    requires SoundTable(before) && UniquePorts(before)
    ensures UniquePorts(Inserted(before, p)) <==> forall id :: !HasPort(before, id, p.port)
  {
    var after, new_ := Inserted(before, p), before.next;
    assert new_ !in before.proxies && new_ in after.proxies;
    forall a | a in before.proxies ensures a in after.proxies && after.proxies[a] == before.proxies[a] {
    }
    if a :| HasPort(before, a, p.port) {
      assert after.proxies[a].port == after.proxies[new_].port;
    } else {
      forall a | a in before.proxies ensures after.proxies[a].port != p.port {
        assert !HasPort(before, a, p.port);
      }
    }
  }

  /** Whenever a deleted user's proxy holds a port nobody else is seen to hold, the next creation for a user who starts
      there makes a duplicate. */
  lemma OrphanPortIsReused(before: Table, orphan: int, after: Table, userID: int, node: int, port: int)
    requires SoundTable(before) && orphan in before.proxies && !Visible(before, orphan)
    requires before.proxies[orphan].port == PortAt(userID, 0) && !Held(before, PortAt(userID, 0))
    requires Created(before, before, after, userID, node, port)
    ensures port == PortAt(userID, 0) && !UniquePorts(after)
    ensures after.proxies[orphan].port == after.proxies[before.next].port && orphan != before.next
  {
    var k: nat :| k < TOTAL_PORTS && PortAt(userID, k) == port && !Held(before, port)
                  && forall j: nat | j < k :: Held(before, PortAt(userID, j));
    assert k == 0;
    assert orphan in after.proxies && before.next in after.proxies;
    assert after.proxies[orphan].port == after.proxies[before.next].port;
  }

  ghost predicate NoOrphans(t: Table) {
    forall id | id in t.proxies :: Visible(t, id)
  }

  datatype Error = NotAvailable | InvalidUser | InvalidNode | NoAccess | RepositoryError | NoPortLeft

  datatype Rebuild = Rebuild(targets: seq<int>, created: seq<int>, deleted: seq<int>, skipped: nat)

  /** A page of the user's proxies, in any order: all of them when they fit. */
  ghost predicate Listing(t: Table, userID: int, listing: seq<int>) {
    && Distinct(listing) && |listing| <= PAGE
    && (forall id | id in listing :: id in t.proxies && t.proxies[id].userID == userID)
    && (|listing| < PAGE ==> forall id | id in t.proxies && t.proxies[id].userID == userID :: id in listing)
  }

  /** A listed automatic proxy on the node. */
  predicate OldAuto(t: Table, listing: seq<int>, id: int, node: int) {
    id in listing && id in t.proxies && IsAutoProvisioned(t.proxies[id]) && t.proxies[id].nodeID == Some(node)
  }

  predicate Lists(idsByNode: map<int, seq<int>>, node: int, id: int) {
    node in idsByNode && id in idsByNode[node]
  }

  ghost predicate IsTarget(t: Table, listing: seq<int>, nodeID: Option<int>, node: int) {
    && node > 0
    && (nodeID == Some(node) || (nodeID.None? && exists id :: id in listing && OldAuto(t, listing, id, node)))
  }

  lemma OldAutoExtends(t: Table, seen: seq<int>, id: int)
    ensures forall k, node ::
              OldAuto(t, seen + [id], k, node) <==> OldAuto(t, seen, k, node) || (k == id && OldAuto(t, [id], id, node))
  {
  }

  lemma IsTargetExtends(t: Table, seen: seq<int>, id: int, nodeID: Option<int>)
    ensures forall node ::
              IsTarget(t, seen + [id], nodeID, node) <==>
              IsTarget(t, seen, nodeID, node) || (nodeID.None? && node > 0 && OldAuto(t, [id], id, node))
  {
    hide OldAuto;
    OldAutoExtends(t, seen, id);
    forall node ensures IsTarget(t, seen + [id], nodeID, node) <==>
          IsTarget(t, seen, nodeID, node) || (nodeID.None? && node > 0 && OldAuto(t, [id], id, node)) {
      if k :| k in seen && OldAuto(t, seen, k, node) { assert OldAuto(t, seen + [id], k, node); }
      if OldAuto(t, [id], id, node) { assert OldAuto(t, seen + [id], id, node); }
      if k :| k in seen + [id] && OldAuto(t, seen + [id], k, node) {
        assert OldAuto(t, seen, k, node) ==> k in seen by { OldAutoIsListed(t, seen, k, node); }
      }
    }
  }

  lemma OldAutoIsListed(t: Table, listing: seq<int>, id: int, node: int)
    ensures OldAuto(t, listing, id, node) ==> id in listing
  {
  }

  ghost predicate SoundTable(t: Table) {
    forall id | id in t.proxies :: id < t.next
  }

  /** `after` has, for every node in `rebuilt`, one new automatic proxy of the user, and differs in nothing else. */
  ghost predicate Added(before: Table, after: Table, userID: int, rebuilt: map<int, int>) {
    && after.users == before.users && after.next >= before.next
    && (forall id | id in before.proxies :: id in after.proxies && after.proxies[id] == before.proxies[id])
    && (forall node | node in rebuilt ::
          var id := rebuilt[node];
          && before.next <= id < after.next && id in after.proxies
          && NewProxy(after.proxies[id], userID, node))
    && (forall id | id in after.proxies && id !in before.proxies ::
          after.proxies[id].nodeID.Some? && after.proxies[id].nodeID.value in rebuilt
              && rebuilt[after.proxies[id].nodeID.value] == id)
  }

  ghost predicate NewProxy(p: Proxy, userID: int, node: int) {
    p.userID == userID && p.nodeID == Some(node) && p.enabled && p.remark == AUTO_REMARK
  }

  /** No new proxy has taken a port that was visibly held. */
  ghost predicate NoNewConflict(before: Table, after: Table) {
    forall a, b | Visible(after, a) && Visible(after, b) && a != b && after.proxies[a].port == after.proxies[b].port ::
      a in before.proxies && b in before.proxies
  }

  class Service {
    var table: Table

    constructor (table: Table)
      ensures this.table == table
    {
      this.table := table;
    }

    /** `queryable` says for which ports the lookup works. */
    method AllocatePort(userID: int, queryable: int -> bool) returns (port: Result<int, Error>)
      ensures port.Ok? ==> FirstFree(table, userID, port.value)
      ensures port.Ok? ==> exists k: nat | k < TOTAL_PORTS ::
                PortAt(userID, k) == port.value && !Held(table, port.value) && queryable(port.value) &&
                forall j: nat | j < k :: Held(table, PortAt(userID, j)) && queryable(PortAt(userID, j))
      ensures port.Ok? ==>
                forall id | id in table.proxies && table.proxies[id].port == port.value ::
                  table.proxies[id].userID != 0 && table.proxies[id].userID !in table.users
      ensures port.Err? && port.error == NoPortLeft ==>
          forall j: nat | j < TOTAL_PORTS :: Held(table, PortAt(userID, j))
      ensures port.Err? && port.error == NoPortLeft ==>
                forall j: nat | j < TOTAL_PORTS :: InUse(table, PortAt(userID, j))
      ensures port.Err? && userID >= 0 && (forall p :: queryable(p)) ==>
          forall p | PORT_MIN <= p <= PORT_MAX :: Held(table, p)
    {
      var start := PORT_MIN + GoMod(userID, TOTAL_PORTS);
      for offset := 0 to TOTAL_PORTS
        invariant forall j: nat | j < offset :: Held(table, PortAt(userID, j)) && queryable(PortAt(userID, j))
      {
        var candidate := PORT_MIN + GoMod(start - PORT_MIN + offset, TOTAL_PORTS);
        assert candidate == PortAt(userID, offset);
        if !queryable(candidate) { return Err(RepositoryError); }
        if !Held(table, candidate) { return Ok(candidate); }
      }
      if userID >= 0 {
        forall p | PORT_MIN <= p <= PORT_MAX ensures Held(table, p) {
          OffsetsCoverRange(userID, p);
        }
      }
      forall j: nat | j < TOTAL_PORTS ensures InUse(table, PortAt(userID, j)) {
        assert Held(table, PortAt(userID, j)) && queryable(PortAt(userID, j));
        HeldByUser(table, PortAt(userID, j));
      }
      return Err(NoPortLeft);
    }

    /** `provisionable` covers the lookup of the node, its protocol and settings, and the insertion; `meanwhile` is what
        others do to the table between the port look-up and the insertion. */
    method CreateAutoProvisionedProxy(userID: int, node: int, provisionable: int -> bool, queryable: int -> bool,
                                      meanwhile: seq<Change>)
      returns (id: Result<int, Error>, ghost port: int)
      requires SoundTable(table)
      modifies this
      ensures id.Err? ==> table == old(table)
      ensures id.Ok? ==>
                var before := ChangedBy(old(table), meanwhile);
                && id.value == before.next && id.value !in before.proxies
                && Created(old(table), before, table, userID, node, port)
                && (UniquePorts(before) ==>
                      (UniquePorts(table) <==>
                         !OrphanRemains(old(table), before, port) && !TakenMeanwhile(old(table), before, port)))
      ensures id.Err? ==> Unprovisionable(old(table), userID, node, provisionable, queryable)
    {
      port := 0;
      if !provisionable(node) { return Err(RepositoryError), port; }
      var free := AllocatePort(userID, queryable);
      if free.Err? { return Err(free.error), port; }
      ghost var seen := table;
      table := ChangedBy(table, meanwhile);
      ChangesKeepSound(seen, meanwhile);
      id, port := Ok(table.next), free.value;
      table := Inserted(table, Proxy(userID, Some(node), free.value, true, AUTO_REMARK));
      if UniquePorts(ChangedBy(seen, meanwhile)) {
        CreationKeepsUniquePorts(seen, meanwhile, table, userID, node, port);
      }
    }

    /** First loop of the rebuild: the target nodes in order of first mention, and their listed automatic proxies. */
    method CollectTargets(nodeID: Option<int>, listing: seq<int>)
      returns (targets: seq<int>, oldIDs: map<int, seq<int>>)
      requires forall id | id in listing :: id in table.proxies
      ensures Distinct(targets) && forall node :: node in targets <==> IsTarget(table, listing, nodeID, node)
      ensures forall node | node in targets :: forall id ::
                Lists(oldIDs, node, id) <==> OldAuto(table, listing, id, node)
    {
      targets, oldIDs := [], map[];
      if nodeID.Some? && nodeID.value > 0 {
        targets := [nodeID.value];
      }
      for i := 0 to |listing|
        invariant Distinct(targets)
        invariant forall node :: node in targets <==> IsTarget(table, listing[..i], nodeID, node)
        invariant forall node, id | nodeID.None? || nodeID == Some(node) ::
                    Lists(oldIDs, node, id) <==> OldAuto(table, listing[..i], id, node)
      {
        ghost var seen, id, was := listing[..i], listing[i], oldIDs;
        assert listing[..i + 1] == seen + [id] && id in listing;
        var p := table.proxies[listing[i]];
        if IsAutoProvisioned(p) && p.nodeID.Some? && (nodeID.None? || p.nodeID == nodeID) {
          var node := p.nodeID.value;
          assert OldAuto(table, listing[..i + 1], id, node);
          oldIDs := oldIDs[node := (if node in oldIDs then oldIDs[node] else []) + [listing[i]]];
          if node > 0 && node !in targets {
            targets := targets + [node];
          }
        }
        OldAutoExtends(table, seen, id);
        forall n, k | nodeID.None? || nodeID == Some(n)
          ensures Lists(oldIDs, n, k) <==> Lists(was, n, k) || (k == id && OldAuto(table, [id], id, n)) {
        }
        forall n, k | nodeID.None? || nodeID == Some(n)
          ensures Lists(was, n, k) <==> OldAuto(table, seen, k, n) {
        }
        IsTargetExtends(table, seen, id, nodeID);
      }
      assert listing[..|listing|] == listing;
    }

    /** Second loop: one new proxy per target that can be provisioned; nobody else is at work. */
    method ProvisionTargets(userID: int, targets: seq<int>, oldIDs: map<int, seq<int>>,
                            provisionable: int -> bool, queryable: int -> bool)
      returns (created: seq<int>, deletable: seq<int>, ghost rebuilt: map<int, int>)
      requires SoundTable(table) && userID in table.users && Distinct(targets)
      modifies this
      ensures Provisioned(old(table), table, userID, targets, oldIDs, created, deletable, rebuilt, provisionable, queryable)
    {
      created, deletable, rebuilt := [], [], map[];
      NothingProvisioned(table, userID, oldIDs, provisionable, queryable);
      for i := 0 to |targets|
        invariant Provisioned(old(table), table, userID, targets[..i], oldIDs, created, deletable, rebuilt, provisionable, queryable)
      {
        hide *;
        ProvisionedIsSound(old(table), table, userID, targets[..i], oldIDs, created, deletable, rebuilt, provisionable, queryable);
        var node := targets[i];
        NextTarget(targets, i);
        ghost var was, before := table, rebuilt;
        ghost var createdBefore, deletableBefore := created, deletable;
        var id; ghost var port;
        id, port := CreateAutoProvisionedProxy(userID, node, provisionable, queryable, []);
        NothingChanged(was);
        if id.Ok? {
          created := created + [id.value];
          rebuilt := rebuilt[node := id.value];
          deletable := deletable + if node in oldIDs then oldIDs[node] else [];
          OneMoreProvisioned(old(table), was, table, userID, targets[..i], node, id.value, port, oldIDs, createdBefore,
                             deletableBefore, before, provisionable, queryable);
        } else {
          OneMoreSkipped(old(table), table, userID, targets[..i], node, oldIDs, created, deletable, rebuilt, provisionable,
                         queryable);
        }
      }
      assert targets[..|targets|] == targets;
    }

    /** Recreates the user's automatic proxies, on one node or on all that have one. The parameters say what the
        repositories answer: whether provisioning is set up, whether the user is entitled, the user's proxies (None for
        an error), and which creations, port lookups and deletions work. */
    method RebuildAutoProvisionedProxies(userID: int, nodeID: Option<int>, available: bool, entitled: bool,
                                         listing: Option<seq<int>>, provisionable: int -> bool, queryable: int -> bool,
                                         deletes: bool)
      returns (result: Rebuild, error: Option<Error>, ghost rebuilt: map<int, int>, ghost added: Table)
      requires SoundTable(table) && (listing.Some? ==> Listing(table, userID, listing.value))
      modifies this
      ensures SoundTable(table)
      ensures var refused := !available || userID <= 0 || (nodeID.Some? && nodeID.value <= 0) || userID !in old(table).users
                             || !entitled || listing.None?;
              && (refused ==> error.Some? && table == old(table) && result == Rebuild([], [], [], 0))
              && (!refused ==>
                    && Added(old(table), added, userID, rebuilt) && NoNewConflict(old(table), added)
                    && (forall node :: node in result.targets <==> IsTarget(old(table), listing.value, nodeID, node))
                    && rebuilt.Keys <= (set node | node in result.targets)
                    && |result.created| == |rebuilt| && result.skipped == |result.targets| - |rebuilt|
                    && (forall id :: id in result.created <==> id in added.proxies && id !in old(table).proxies)
                    && (forall node | node in result.targets && node !in rebuilt ::
                          Unprovisionable(added, userID, node, provisionable, queryable))
                    && (error.None? ==> table == WithoutReplaced(old(table), added, listing.value, rebuilt))
                    && (error.None? ==> forall id :: id in result.deleted <==> Replaced(old(table), listing.value, rebuilt, id))
                    && (error.Some? ==> !deletes && table == added && result.deleted == []))
      ensures forall id | id in old(table).proxies && !Rebuildable(old(table), userID, id) ::
                id in table.proxies && table.proxies[id] == old(table).proxies[id]
    {
      hide IsAutoProvisioned, MarksAutomatic, Held, NoNewConflict, Added, Unprovisionable, IsTarget, OldAuto;
      result := Rebuild([], [], [], 0);
      rebuilt, added := map[], table;
      if !available { error := Some(NotAvailable); return; }
      if userID <= 0 { error := Some(InvalidUser); return; }
      if nodeID.Some? && nodeID.value <= 0 { error := Some(InvalidNode); return; }
      if userID !in table.users { error := Some(RepositoryError); return; }
      if !entitled { error := Some(NoAccess); return; }
      if listing.None? { error := Some(RepositoryError); return; }
      error := None;
      var targets, oldIDs := CollectTargets(nodeID, listing.value);
      result := result.(targets := targets);
      if |targets| == 0 {
        NothingReplaced(table, listing.value);
        NothingAdded(table, userID);
        return;
      }
      ghost var before := table;
      var created, deletable;
      created, deletable, rebuilt := ProvisionTargets(userID, targets, oldIDs, provisionable, queryable);
      RebuiltCount(targets, rebuilt);
      added := table;
      OthersStay(before, added, listing.value, userID, rebuilt);
      result := result.(created := created, skipped := |targets| - |created|);
      ReplacedAreListed(before, listing.value, targets, oldIDs, rebuilt, deletable);
      if |deletable| > 0 {
        if !deletes { error := Some(RepositoryError); return; }
        table := table.(proxies := map id | id in table.proxies && id !in deletable :: table.proxies[id]);
        result := result.(deleted := deletable);
      }
      assert table.proxies == WithoutReplaced(before, added, listing.value, rebuilt).proxies;
    }
  }

  // ---- Facts about the rebuild ----

  ghost predicate Unprovisionable(t: Table, userID: int, node: int, provisionable: int -> bool,
                                  queryable: int -> bool) {
    provisionable(node) && (forall p :: queryable(p)) && userID >= 0 ==>
        forall p | PORT_MIN <= p <= PORT_MAX :: Held(t, p)
  }

  /** A listed automatic proxy on a node that got a new one. */
  predicate Replaced(t: Table, listing: seq<int>, rebuilt: map<int, int>, id: int) {
    && id in t.proxies && t.proxies[id].nodeID.Some? && t.proxies[id].nodeID.value in rebuilt
    && OldAuto(t, listing, id, t.proxies[id].nodeID.value)
  }

  ghost function WithoutReplaced(before: Table, added: Table, listing: seq<int>, rebuilt: map<int, int>): Table {
    added.(proxies := map id | id in added.proxies && !Replaced(before, listing, rebuilt, id) :: added.proxies[id])
  }

  lemma FirstFreeIsFree(t: Table, userID: int, port: int)
    requires FirstFree(t, userID, port)
    ensures !Held(t, port)
  {
  }

  lemma NothingAdded(t: Table, userID: int)
    ensures Added(t, t, userID, map[]) && NoNewConflict(t, t)
  {
  }

  ghost predicate CreatedAre(before: Table, now: Table, created: seq<int>, rebuilt: map<int, int>) {
    |created| == |rebuilt| && forall id :: id in created <==> id in now.proxies && id !in before.proxies
  }

  ghost predicate DeletableAre(oldIDs: map<int, seq<int>>, deletable: seq<int>, rebuilt: map<int, int>) {
    forall id :: id in deletable <==> exists node :: node in rebuilt && Lists(oldIDs, node, id)
  }

  ghost predicate SkippedAre(t: Table, userID: int, done: seq<int>, rebuilt: map<int, int>,
                             provisionable: int -> bool, queryable: int -> bool) {
    && rebuilt.Keys <= (set node | node in done)
    && forall node | node in done && node !in rebuilt :: Unprovisionable(t, userID, node, provisionable, queryable)
  }

  /** Where the second loop stands after the targets `done`. */
  ghost predicate Provisioned(before: Table, now: Table, userID: int, done: seq<int>, oldIDs: map<int, seq<int>>,
                              created: seq<int>, deletable: seq<int>, rebuilt: map<int, int>,
                              provisionable: int -> bool, queryable: int -> bool) {
    && SoundTable(now) && userID in now.users
    && Added(before, now, userID, rebuilt) && NoNewConflict(before, now)
    && CreatedAre(before, now, created, rebuilt) && DeletableAre(oldIDs, deletable, rebuilt)
    && SkippedAre(now, userID, done, rebuilt, provisionable, queryable)
  }

  lemma ProvisionedIsSound(before: Table, now: Table, userID: int, done: seq<int>, oldIDs: map<int, seq<int>>,
                           created: seq<int>, deletable: seq<int>, rebuilt: map<int, int>,
                           provisionable: int -> bool, queryable: int -> bool)
    requires Provisioned(before, now, userID, done, oldIDs, created, deletable, rebuilt, provisionable, queryable)
    ensures SoundTable(now)
  {
  }

  lemma NextTarget(targets: seq<int>, i: nat)
    requires Distinct(targets) && i < |targets|
    ensures targets[..i + 1] == targets[..i] + [targets[i]] && targets[i] !in targets[..i]
  {
  }

  lemma OneMoreSkipped(before: Table, now: Table, userID: int, done: seq<int>, node: int, oldIDs: map<int, seq<int>>,
                       created: seq<int>, deletable: seq<int>, rebuilt: map<int, int>,
                       provisionable: int -> bool, queryable: int -> bool)
    requires Provisioned(before, now, userID, done, oldIDs, created, deletable, rebuilt, provisionable, queryable)
    requires Unprovisionable(now, userID, node, provisionable, queryable)
    ensures Provisioned(before, now, userID, done + [node], oldIDs, created, deletable, rebuilt, provisionable, queryable)
  {
    hide Added, NoNewConflict, Unprovisionable, CreatedAre, DeletableAre;
  }

  lemma NothingProvisioned(t: Table, userID: int, oldIDs: map<int, seq<int>>, provisionable: int -> bool,
                           queryable: int -> bool)
    requires SoundTable(t) && userID in t.users
    ensures Provisioned(t, t, userID, [], oldIDs, [], [], map[], provisionable, queryable)
  {
    NothingAdded(t, userID);
  }

  lemma MoreDeletable(oldIDs: map<int, seq<int>>, deletable: seq<int>, rebuilt: map<int, int>, node: int, id: int)
    requires DeletableAre(oldIDs, deletable, rebuilt)
    ensures DeletableAre(oldIDs, deletable + (if node in oldIDs then oldIDs[node] else []), rebuilt[node := id])
  {
    var more, after := deletable + (if node in oldIDs then oldIDs[node] else []), rebuilt[node := id];
    forall k ensures k in more <==> exists n :: n in after && Lists(oldIDs, n, k) {
      assert k in more <==> k in deletable || Lists(oldIDs, node, k);
      if n :| n in rebuilt && Lists(oldIDs, n, k) {
        assert n in after && Lists(oldIDs, n, k);
      }
      assert Lists(oldIDs, node, k) ==> node in after;
    }
  }

  lemma MoreSkipped(was: Table, now: Table, userID: int, done: seq<int>, rebuilt: map<int, int>, node: int, id: int,
                    provisionable: int -> bool, queryable: int -> bool)
    requires SkippedAre(was, userID, done, rebuilt, provisionable, queryable) && was.users == now.users
    requires forall k | k in was.proxies :: k in now.proxies && now.proxies[k] == was.proxies[k]
    ensures SkippedAre(now, userID, done + [node], rebuilt[node := id], provisionable, queryable)
  {
    hide Unprovisionable;
    forall n | n in done + [node] && n !in rebuilt[node := id]
      ensures Unprovisionable(now, userID, n, provisionable, queryable)
    {
      StillUnprovisionable(was, now, userID, n, provisionable, queryable);
    }
  }

  lemma MoreCreated(before: Table, was: Table, now: Table, created: seq<int>, rebuilt: map<int, int>, node: int, id: int)
    requires CreatedAre(before, was, created, rebuilt) && node !in rebuilt
    requires forall k :: k in now.proxies && k !in before.proxies <==> k == id || (k in was.proxies && k !in before.proxies)
    ensures CreatedAre(before, now, created + [id], rebuilt[node := id])
  {
    assert rebuilt[node := id].Keys == rebuilt.Keys + {node};
    assert |rebuilt[node := id]| == |rebuilt[node := id].Keys| && |rebuilt| == |rebuilt.Keys|;
  }

  lemma OneMoreProvisioned(before: Table, was: Table, now: Table, userID: int, done: seq<int>, node: int, id: int,
                           port: int, oldIDs: map<int, seq<int>>, created: seq<int>, deletable: seq<int>,
                           rebuilt: map<int, int>, provisionable: int -> bool, queryable: int -> bool)
    requires Provisioned(before, was, userID, done, oldIDs, created, deletable, rebuilt, provisionable, queryable)
    requires node !in done && id == was.next && Created(was, was, now, userID, node, port)
    ensures Provisioned(before, now, userID, done + [node], oldIDs, created + [id],
                        deletable + (if node in oldIDs then oldIDs[node] else []), rebuilt[node := id],
                        provisionable, queryable)
  {
    FirstFreeIsFree(was, userID, port);
    assert node !in rebuilt;
    hide Added, NoNewConflict, Unprovisionable, Held, FirstFree, CreatedAre, DeletableAre, SkippedAre;
    AddOne(before, was, now, userID, rebuilt, node, id, port);
    MoreCreated(before, was, now, created, rebuilt, node, id);
    MoreDeletable(oldIDs, deletable, rebuilt, node, id);
    MoreSkipped(was, now, userID, done, rebuilt, node, id, provisionable, queryable);
  }

  lemma AddOne(before: Table, was: Table, now: Table, userID: int, rebuilt: map<int, int>, node: int, id: int,
               port: int)
    requires SoundTable(was) && userID in was.users && node !in rebuilt && id == was.next
    requires Added(before, was, userID, rebuilt) && NoNewConflict(before, was) && !Held(was, port)
    requires now == Table(was.proxies[id := Proxy(userID, Some(node), port, true, AUTO_REMARK)], id + 1, was.users)
    ensures SoundTable(now) && Added(before, now, userID, rebuilt[node := id]) && NoNewConflict(before, now)
    ensures forall k :: k in now.proxies && k !in before.proxies <==>
        k == id || (k in was.proxies && k !in before.proxies)
  {
    hide IsAutoProvisioned, Held, NoNewConflict, Added;
    AddedIsFresh(before, was, userID, rebuilt);
    OneMoreAdded(before, was, now, userID, rebuilt, node, id, port);
    OneMoreConflictFree(before, was, now, id, port);
  }

  lemma AddedIsFresh(before: Table, was: Table, userID: int, rebuilt: map<int, int>)
    requires Added(before, was, userID, rebuilt)
    ensures before.proxies.Keys <= was.proxies.Keys
  {
    forall id | id in before.proxies ensures id in was.proxies { }
  }

  lemma OneMoreAdded(before: Table, was: Table, now: Table, userID: int, rebuilt: map<int, int>, node: int, id: int,
                     port: int)
    requires SoundTable(was) && node !in rebuilt && id == was.next && Added(before, was, userID, rebuilt)
    requires now == Table(was.proxies[id := Proxy(userID, Some(node), port, true, AUTO_REMARK)], id + 1, was.users)
    ensures Added(before, now, userID, rebuilt[node := id])
  {
    var p := now.proxies[id];
    assert NewProxy(p, userID, node);
    hide NewProxy, IsAutoProvisioned;
    forall n | n in rebuilt ensures rebuilt[n] != id && now.proxies[rebuilt[n]] == was.proxies[rebuilt[n]] {
    }
    forall k | k in now.proxies && k !in before.proxies && k != id
      ensures was.proxies[k].nodeID.Some? && was.proxies[k].nodeID.value in rebuilt && was.proxies[k].nodeID.value != node {
      assert k in was.proxies;
    }
  }

  lemma OneMoreConflictFree(before: Table, was: Table, now: Table, id: int, port: int)
    requires SoundTable(was) && id == was.next && NoNewConflict(before, was) && !Held(was, port)
    requires now.users == was.users && id in now.proxies && now.proxies[id].port == port
    requires now.proxies.Keys == was.proxies.Keys + {id} && forall k | k in was.proxies :: now.proxies[k] == was.proxies[k]
    ensures NoNewConflict(before, now)
  {
    forall a, b | Visible(now, a) && Visible(now, b) && a != b && now.proxies[a].port == now.proxies[b].port
      ensures a in before.proxies && b in before.proxies
    {
      assert a != id ==> Visible(was, a);
      assert b != id ==> Visible(was, b);
    }
  }

  lemma StillUnprovisionable(was: Table, now: Table, userID: int, node: int, provisionable: int -> bool,
                             queryable: int -> bool)
    requires Unprovisionable(was, userID, node, provisionable, queryable) && was.users == now.users
    requires forall id | id in was.proxies :: id in now.proxies && now.proxies[id] == was.proxies[id]
    ensures Unprovisionable(now, userID, node, provisionable, queryable)
  {
    forall p | Held(was, p) ensures Held(now, p) {
      var id :| id in was.proxies && Visible(was, id) && was.proxies[id].port == p;
      assert id in now.proxies && Visible(now, id);
    }
  }

  lemma NothingReplaced(t: Table, listing: seq<int>)
    ensures WithoutReplaced(t, t, listing, map[]) == t
  {
    assert WithoutReplaced(t, t, listing, map[]).proxies == t.proxies;
  }

  lemma RebuiltCount(targets: seq<int>, rebuilt: map<int, int>)
    requires Distinct(targets) && rebuilt.Keys <= set node | node in targets
    ensures |rebuilt| <= |targets|
  {
    DistinctSize(targets);
    SubsetSize(rebuilt.Keys, set node | node in targets);
  }

  lemma ReplacedAreListed(t: Table, listing: seq<int>, targets: seq<int>, oldIDs: map<int, seq<int>>,
                          rebuilt: map<int, int>, deletable: seq<int>)
    requires rebuilt.Keys <= set node | node in targets
    requires forall node | node in targets :: forall id :: Lists(oldIDs, node, id) <==> OldAuto(t, listing, id, node)
    requires forall id :: id in deletable <==> exists node :: node in rebuilt && Lists(oldIDs, node, id)
    ensures forall id :: id in deletable <==> Replaced(t, listing, rebuilt, id)
  {
    forall id ensures id in deletable <==> Replaced(t, listing, rebuilt, id) {
      if Replaced(t, listing, rebuilt, id) {
        var node := t.proxies[id].nodeID.value;
        assert node in targets && node in rebuilt && Lists(oldIDs, node, id);
      }
      if id in deletable {
        var node :| node in rebuilt && Lists(oldIDs, node, id);
        assert node in targets && OldAuto(t, listing, id, node);
      }
    }
  }

  /** The automatic proxies a user has on a node. */
  ghost function AutosOn(t: Table, userID: int, node: int): set<int> {
    set id | id in t.proxies && t.proxies[id].userID == userID && t.proxies[id].nodeID == Some(node)
        && MarksAutomatic(t.proxies[id].remark)
  }

  /** The automatic proxies on a node that the page of 10000 left out. */
  ghost function Unlisted(t: Table, listing: seq<int>, userID: int, node: int): set<int> {
    AutosOn(t, userID, node) - set id | id in listing
  }

  lemma NothingUnlisted(t: Table, listing: seq<int>, userID: int, node: int)
    requires Listing(t, userID, listing) && |listing| < PAGE
    ensures Unlisted(t, listing, userID, node) == {}
  {
    forall id | id in AutosOn(t, userID, node) ensures id in listing {
      assert id in t.proxies && t.proxies[id].userID == userID;
    }
  }

  /** A proxy of the user whose remark marks it as automatic; a rebuild touches no other. */
  ghost predicate Rebuildable(t: Table, userID: int, id: int) {
    id in t.proxies && t.proxies[id].userID == userID && MarksAutomatic(t.proxies[id].remark)
  }

  lemma OthersStay(before: Table, added: Table, listing: seq<int>, userID: int, rebuilt: map<int, int>)
    requires Listing(before, userID, listing) && Added(before, added, userID, rebuilt)
    ensures forall id | id in before.proxies && !Rebuildable(before, userID, id) ::
              && id in added.proxies && added.proxies[id] == before.proxies[id]
              && id in WithoutReplaced(before, added, listing, rebuilt).proxies
              && WithoutReplaced(before, added, listing, rebuilt).proxies[id] == before.proxies[id]
  {
    hide IsAutoProvisioned, MarksAutomatic;
    AutomaticIsMarked();
  }

  /** A rebuild whose deletion works: on each target the user has either the old automatic proxies and no new one, or
      exactly one new and no old one (but for those left out of the page, of which there are none while the user has
      fewer than 10000 proxies). Manual proxies, other users' proxies and other nodes stay as they were. */
  lemma OldOrNew(before: Table, added: Table, listing: seq<int>, userID: int, rebuilt: map<int, int>)
    requires SoundTable(before) && Listing(before, userID, listing)
    requires Added(before, added, userID, rebuilt) && NoNewConflict(before, added)
    ensures var after := WithoutReplaced(before, added, listing, rebuilt);
            && (forall node :: AutosOn(after, userID, node) ==
                  if node in rebuilt then {rebuilt[node]} + Unlisted(before, listing, userID, node) else AutosOn(before, userID, node))
            && (forall node | node in rebuilt :: rebuilt[node] !in before.proxies)
            && (forall id | id in before.proxies && !Rebuildable(before, userID, id) ::
                  id in after.proxies && after.proxies[id] == before.proxies[id])
            && (forall id | id in after.proxies && id !in before.proxies ::
                  after.proxies[id].userID == userID && MarksAutomatic(after.proxies[id].remark))
  {
    hide IsAutoProvisioned, MarksAutomatic;
    AutomaticIsMarked();
    OthersStay(before, added, listing, userID, rebuilt);
    var after := WithoutReplaced(before, added, listing, rebuilt);
    forall id | id in added.proxies && id !in before.proxies
      ensures IsAutoProvisioned(added.proxies[id])
          && NewProxy(added.proxies[id], userID, added.proxies[id].nodeID.value)
    {
      var node := added.proxies[id].nodeID.value;
      assert node in rebuilt && rebuilt[node] == id;
      assert NewProxy(added.proxies[rebuilt[node]], userID, node);
      AutoRemark(added.proxies[id]);
    }
    forall node ensures AutosOn(after, userID, node) ==
        if node in rebuilt then {rebuilt[node]} + Unlisted(before, listing, userID, node) else AutosOn(before, userID, node)
    {
      AutosAfter(before, added, listing, userID, rebuilt, node);
    }
  }

  /** A rebuild keeps all ports unique if and only if no port it hands out is held by a proxy of a deleted user; so always
      when there are no such proxies. */
  lemma RebuildKeepsUniquePorts(before: Table, added: Table, listing: seq<int>, userID: int, rebuilt: map<int, int>)
    requires SoundTable(before) && Listing(before, userID, listing) && userID in before.users && UniquePorts(before)
    requires Added(before, added, userID, rebuilt) && NoNewConflict(before, added)
    ensures UniquePorts(WithoutReplaced(before, added, listing, rebuilt)) <==>
              forall node | node in rebuilt :: !OrphanHolds(before, added.proxies[rebuilt[node]].port)
    ensures NoOrphans(before) ==> UniquePorts(WithoutReplaced(before, added, listing, rebuilt))
  {
    hide IsAutoProvisioned;
    var after := WithoutReplaced(before, added, listing, rebuilt);
    if node :| node in rebuilt && OrphanHolds(before, added.proxies[rebuilt[node]].port) {
      var id := rebuilt[node];
      var orphan :| orphan in before.proxies && !Visible(before, orphan) && before.proxies[orphan].port == added.proxies[id].port;
      assert orphan in after.proxies && id in after.proxies && orphan != id;
      assert after.proxies[orphan].port == after.proxies[id].port;
    } else {
      forall a, b | a in after.proxies && b in after.proxies && a != b ensures after.proxies[a].port != after.proxies[b].port {
        PortsDiffer(before, added, userID, rebuilt, a, b);
      }
    }
  }

  lemma PortsDiffer(before: Table, added: Table, userID: int, rebuilt: map<int, int>, a: int, b: int)
    requires UniquePorts(before) && userID in before.users
    requires Added(before, added, userID, rebuilt) && NoNewConflict(before, added)
    requires forall node | node in rebuilt :: !OrphanHolds(before, added.proxies[rebuilt[node]].port)
    requires a in added.proxies && b in added.proxies && a != b
    ensures added.proxies[a].port != added.proxies[b].port
  {
    NewIsVisible(before, added, userID, rebuilt, a);
    NewIsVisible(before, added, userID, rebuilt, b);
    if added.proxies[a].port == added.proxies[b].port {
      assert a in before.proxies || b in before.proxies;
      assert !(a in before.proxies && b in before.proxies);
      var old_, new_ := if a in before.proxies then a else b, if a in before.proxies then b else a;
      assert !Visible(added, old_) && !Visible(before, old_);
      assert OrphanHolds(before, added.proxies[new_].port);
      assert false;
    }
  }

  lemma NewIsVisible(before: Table, added: Table, userID: int, rebuilt: map<int, int>, id: int)
    requires userID in before.users && Added(before, added, userID, rebuilt) && id in added.proxies
    ensures id in before.proxies ==> added.proxies[id] == before.proxies[id] && (Visible(added, id) <==> Visible(before, id))
    ensures id !in before.proxies ==>
              Visible(added, id) && exists node :: node in rebuilt && rebuilt[node] == id
  {
    if id !in before.proxies {
      var node := added.proxies[id].nodeID.value;
      assert node in rebuilt && rebuilt[node] == id;
      assert NewProxy(added.proxies[rebuilt[node]], userID, node);
    }
  }

  lemma AutosAfter(before: Table, added: Table, listing: seq<int>, userID: int, rebuilt: map<int, int>, node: int)
    requires SoundTable(before) && Listing(before, userID, listing)
    requires Added(before, added, userID, rebuilt)
    requires forall id | id in added.proxies && id !in before.proxies :: IsAutoProvisioned(added.proxies[id])
    ensures AutosOn(WithoutReplaced(before, added, listing, rebuilt), userID, node) ==
              if node in rebuilt then {rebuilt[node]} + Unlisted(before, listing, userID, node) else AutosOn(before, userID, node)
  {
    hide IsAutoProvisioned, MarksAutomatic;
    AutomaticIsMarked();
    var after := WithoutReplaced(before, added, listing, rebuilt);
    var right := if node in rebuilt then {rebuilt[node]} + Unlisted(before, listing, userID, node) else AutosOn(before, userID, node);
    forall id ensures id in AutosOn(after, userID, node) <==> id in right {
      if id in before.proxies {
        assert added.proxies[id] == before.proxies[id];
      }
      if node in rebuilt && id == rebuilt[node] {
        assert id !in before.proxies && id in after.proxies && NewProxy(added.proxies[id], userID, node);
      }
    }
  }
}
