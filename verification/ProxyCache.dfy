/** The in-memory cache (internal/cache/memory.go) and the proxy lookup that uses it (internal/proxy/manager.go). */
module ProxyCache {
  import opened Common

  // ---- The cache ----

  datatype Item<V> = Item(value: V, expiresAt: int)

  predicate Expired<V>(item: Item<V>, now: int) {
    now > item.expiresAt
  }

  function Live<K, V>(items: map<K, Item<V>>, now: int): map<K, Item<V>> {
    map k | k in items && !Expired(items[k], now) :: items[k]
  }

  const DEFAULT_TTL := 5 * 60_000_000_000
  const DEFAULT_MAX_ITEMS: nat := 10000

  class MemoryCache<K(==), V> {
    const defaultTTL: int
    const maxItems: nat
    var items: map<K, Item<V>>

    constructor (defaultTTL: int, maxItems: int)
      ensures this.defaultTTL == if defaultTTL <= 0 then 300_000_000_000 else defaultTTL
      ensures this.maxItems == if maxItems <= 0 then 10000 else maxItems
      ensures Valid() && items == map[]
    {
      this.defaultTTL := if defaultTTL <= 0 then DEFAULT_TTL else defaultTTL;
      this.maxItems := if maxItems <= 0 then DEFAULT_MAX_ITEMS else maxItems;
      items := map[];
    }

    ghost predicate Valid()
      reads this
    {
      maxItems >= 1 && defaultTTL >= 1 && |items| <= maxItems
    }

    method Get(key: K, now: int) returns (value: Option<V>)
      ensures value == if key in items && now <= items[key].expiresAt then Some(items[key].value) else None
    {
      if key !in items || Expired(items[key], now) { return None; }
      return Some(items[key].value);
    }

    /** Stores the value; a full cache first makes room, never by touching what it keeps. */
    method Set(key: K, value: V, ttl: int, now: int)
      requires Valid()
      modifies this
      ensures Valid()
      ensures key in items && items[key] == Item(value, now + if ttl <= 0 then defaultTTL else ttl)
      ensures forall k | k in items && k != key :: k in old(items) && items[k] == old(items)[k]
      ensures |old(items)| < maxItems ==> forall k | k in old(items) :: k in items
    {
      var item := Item(value, now + if ttl <= 0 then defaultTTL else ttl);
      if |items| >= maxItems {
        EvictOldest(now);
      }
      GrowsByOne(items, key, item);
      items := items[key := item];
    }

    /** Removes what has expired and, only if the cache is then still full, a tenth of its capacity but at least one. */
    method EvictOldest(now: int)
      requires Valid()
      modifies this
      ensures Valid() && |items| < maxItems
      ensures forall k | k in items :: k in old(items) && items[k] == old(items)[k] && !Expired(items[k], now)
      ensures var live := Live(old(items), now);
              |items| == |live| - if |live| < maxItems then 0 else if maxItems < 20 then 1 else maxItems / 10
    {
      LiveNoLarger(items, now);
      RemoveExpired(now);
      ghost var live := items;
      if |items| >= maxItems {
        var toRemove := maxItems / 10;
        var count := 0;
        var todo := items.Keys;
        while todo != {}
          invariant todo <= items.Keys
          invariant |items| == |live| - count && (count < toRemove || count == 0)
          invariant count == 0 ==> todo == items.Keys
          invariant count > 0 ==> |todo| == |live| - count
          invariant forall k | k in items :: k in live && items[k] == live[k]
          decreases |todo|
        {
          var key :| key in todo;
          todo := todo - {key};
          ShrinksByOne(items, key);
          items := items - {key};
          count := count + 1;
          if count >= toRemove { break; }
        }
      }
    }

    method RemoveExpired(now: int)
      modifies this
      ensures items == Live(old(items), now)
      ensures forall k :: k in items <==> k in old(items) && now <= old(items)[k].expiresAt
    {
      var todo := items.Keys;
      while todo != {}
        invariant todo <= items.Keys <= old(items).Keys
        invariant forall k | k in items :: items[k] == old(items)[k]
        invariant forall k | k in old(items) && k !in todo :: k in items <==> !Expired(old(items)[k], now)
        decreases |todo|
      {
        var key :| key in todo;
        todo := todo - {key};
        if Expired(items[key], now) {
          items := items - {key};
        }
      }
    }

    method Delete(key: K)
      requires Valid()
      modifies this
      ensures Valid() && items == old(items) - {key}
    {
      NoLarger(items - {key}, items);
      items := items - {key};
    }
  }

  lemma GrowsByOne<K, V>(m: map<K, V>, key: K, value: V)
    ensures |m[key := value]| == |m| + if key in m then 0 else 1
  {
    assert m[key := value].Keys == m.Keys + {key};
    assert |m.Keys| == |m| && |m[key := value].Keys| == |m[key := value]|;
  }

  lemma ShrinksByOne<K, V>(m: map<K, V>, key: K)
    requires key in m
    ensures |m - {key}| == |m| - 1
  {
    assert (m - {key}).Keys == m.Keys - {key};
    assert |m.Keys| == |m| && |(m - {key}).Keys| == |m - {key}|;
  }

  lemma NoLarger<K, V>(a: map<K, V>, b: map<K, V>)
    requires a.Keys <= b.Keys
    ensures |a| <= |b|
  {
    SubsetSize(a.Keys, b.Keys);
    assert |a.Keys| == |a| && |b.Keys| == |b|;
  }

  lemma LiveNoLarger<K, V>(items: map<K, Item<V>>, now: int)
    ensures |Live(items, now)| <= |items|
  {
    NoLarger(Live(items, now), items);
  }

  // ---- The lookup ----

  /** What a caller sets and gets. */
  datatype Settings = Settings(id: int, name: string, protocol: string, port: int, host: string, config: string,
                               enabled: bool, remark: string)

  /** A row of the proxy table; `owner` stands for the columns the manager never changes. */
  datatype Row = Row(settings: Settings, owner: int)

  /** "proxy:config:%d" */
  datatype Key = ProxyConfig(number: int)

  const TTL := 5 * 60_000_000_000
  const TWO_64 := 0x1_0000_0000_0000_0000

  /** The conversion to an unsigned 64-bit number made before invalidating. */
  function Unsigned(id: int): int {
    id % TWO_64
  }

  datatype Error = Invalid | NotFound | Database

  /** The repository as the manager sees it. */
  datatype Repo = Repo(rows: map<int, Row>, next: int)

  ghost predicate SoundRepo(r: Repo) {
    r.next >= 1 && forall id | id in r.rows :: 1 <= id < r.next && r.next <= TWO_64 && r.rows[id].settings.id == id
  }

  datatype Operation =
    | Create(settings: Settings)
    | Update(settings: Settings)
    | Delete(id: int)
    | Get(id: int)

  /** What one operation answers; only Get returns settings. */
  datatype Answer = Done | Found(settings: Settings) | Failed(error: Error)

  /** How the surroundings behave during one operation: whether validation passes and the database works. */
  datatype Conditions = Conditions(valid: bool, database: bool)

  /** The repository alone: no cache. */
  function Uncached(r: Repo, op: Operation, c: Conditions): (Repo, Answer) {
    match op
    case Create(settings) =>
      if !c.valid then (r, Failed(Invalid))
      else if !c.database then (r, Failed(Database))
      else (Repo(r.rows[r.next := Row(settings.(id := r.next), 0)], r.next + 1), Done)
    case Update(settings) =>
      if !c.valid then (r, Failed(Invalid))
      else if !c.database then (r, Failed(Database))
      else if settings.id !in r.rows then (r, Failed(NotFound))
      else (r.(rows := r.rows[settings.id := r.rows[settings.id].(settings := settings)]), Done)
    case Delete(id) =>
      if !c.database then (r, Failed(Database))
      else if id !in r.rows then (r, Failed(NotFound))
      else (r.(rows := r.rows - {id}), Done)
    case Get(id) =>
      if !c.database then (r, Failed(Database))
      else if id !in r.rows then (r, Failed(NotFound))
      else (r, Found(r.rows[id].settings))
  }

  type Items = map<Key, Item<Row>>

  /** Everything in the cache, expired or not, is what the table holds now. */
  ghost predicate Coherent(r: Repo, items: Items) {
    forall k | k in items :: k.number in r.rows && items[k].value == r.rows[k.number]
  }

  lemma UpdateStaysSound(r: Repo, settings: Settings)
    requires SoundRepo(r) && settings.id in r.rows
    ensures SoundRepo(r.(rows := r.rows[settings.id := r.rows[settings.id].(settings := settings)]))
  {
  }

  lemma UpdateStaysCoherent(r: Repo, items: Items, settings: Settings)
    requires SoundRepo(r) && Coherent(r, items) && settings.id in r.rows
    ensures Coherent(r.(rows := r.rows[settings.id := r.rows[settings.id].(settings := settings)]),
                     items - {ProxyConfig(Unsigned(settings.id))})
  {
  }

  lemma DeleteStaysSound(r: Repo, id: int)
    requires SoundRepo(r)
    ensures SoundRepo(r.(rows := r.rows - {id}))
  {
  }

  lemma DeleteStaysCoherent(r: Repo, items: Items, id: int)
    requires SoundRepo(r) && Coherent(r, items) && id in r.rows
    ensures Coherent(r.(rows := r.rows - {id}), items - {ProxyConfig(Unsigned(id))})
  {
  }

  class Manager {
    var repo: Repo
    const cache: Option<MemoryCache<Key, Row>>

    ghost predicate Valid()
      reads this, if cache.Some? then {cache.value} else {}
    {
      SoundRepo(repo) && (cache.Some? ==> cache.value.Valid() && Coherent(repo, cache.value.items))
    }

    constructor (repo: Repo, cache: Option<MemoryCache<Key, Row>>)
      requires SoundRepo(repo) && (cache.Some? ==> cache.value.Valid() && cache.value.items == map[])
      ensures Valid() && this.repo == repo && this.cache == cache
    {
      this.repo, this.cache := repo, cache;
    }

    method CreateProxy(settings: Settings, c: Conditions) returns (answer: Answer)
      requires Valid() && repo.next < TWO_64
      modifies this
      ensures Valid() && (repo, answer) == Uncached(old(repo), Create(settings), c)
      ensures answer.Done? <==> c.valid && c.database
      ensures answer.Done? ==>
                && old(repo).next !in old(repo).rows && repo.next == old(repo).next + 1
                && repo.rows == old(repo).rows[old(repo).next := Row(settings.(id := old(repo).next), 0)]
      ensures !answer.Done? ==> repo == old(repo)
    {
      if !c.valid { return Failed(Invalid); }
      if !c.database { return Failed(Database); }
      repo := Repo(repo.rows[repo.next := Row(settings.(id := repo.next), 0)], repo.next + 1);
      return Done;
    }

    method UpdateProxy(settings: Settings, c: Conditions) returns (answer: Answer)
      requires Valid()
      modifies this, if cache.Some? then {cache.value} else {}
      ensures Valid() && (repo, answer) == Uncached(old(repo), Update(settings), c)
      ensures answer.Done? <==> c.valid && c.database && settings.id in old(repo).rows
      ensures answer.Done? ==>
                repo.rows == old(repo).rows[settings.id := old(repo).rows[settings.id].(settings := settings)]
      ensures !answer.Done? ==> repo == old(repo)
    {
      if !c.valid { return Failed(Invalid); }
      if !c.database { return Failed(Database); }
      if settings.id !in repo.rows { return Failed(NotFound); }
      hide SoundRepo, Coherent, Unsigned;
      if cache.Some? { UpdateStaysCoherent(repo, cache.value.items, settings); }
      UpdateStaysSound(repo, settings);
      var row := repo.rows[settings.id].(settings := settings);
      repo := repo.(rows := repo.rows[settings.id := row]);
      InvalidateProxyConfig(settings.id);
      return Done;
    }

    method DeleteProxy(id: int, c: Conditions) returns (answer: Answer)
      requires Valid()
      modifies this, if cache.Some? then {cache.value} else {}
      ensures Valid() && (repo, answer) == Uncached(old(repo), Delete(id), c)
      ensures answer.Done? <==> c.database && id in old(repo).rows
      ensures repo.rows == if answer.Done? then old(repo).rows - {id} else old(repo).rows
    {
      if !c.database { return Failed(Database); }
      if id !in repo.rows { return Failed(NotFound); }
      hide SoundRepo, Coherent, Unsigned;
      if cache.Some? { DeleteStaysCoherent(repo, cache.value.items, id); }
      DeleteStaysSound(repo, id);
      repo := repo.(rows := repo.rows - {id});
      InvalidateProxyConfig(id);
      return Done;
    }

    /** Without a database failure the answer is the repository's; during one it may only be the current row. */
    method GetProxy(id: int, now: int, c: Conditions) returns (answer: Answer)
      requires Valid()
      modifies if cache.Some? then {cache.value} else {}
      ensures Valid()
      ensures answer == Uncached(repo, Get(id), c).1
              || (!c.database && cache.Some? && answer == Uncached(repo, Get(id), c.(database := true)).1 && answer.Found?)
      ensures c.database ==> answer == if id in repo.rows then Found(repo.rows[id].settings) else Failed(NotFound)
      ensures cache.Some? && c.database && id in repo.rows ==> ProxyConfig(id) in cache.value.items
      ensures cache.Some? && c.database && id in repo.rows && ProxyConfig(id) !in old(cache.value.items) ==>
                cache.value.items[ProxyConfig(id)] == Item(repo.rows[id], now + 300_000_000_000)
    {
      if cache.Some? {
        var hit := cache.value.Get(ProxyConfig(id), now);
        if hit.Some? { return Found(hit.value.settings); }
      }
      if !c.database { return Failed(Database); }
      if id !in repo.rows { return Failed(NotFound); }
      if cache.Some? {
        cache.value.Set(ProxyConfig(id), repo.rows[id], TTL, now);
      }
      return Found(repo.rows[id].settings);
    }

    method InvalidateProxyConfig(id: int)
      requires cache.Some? ==> cache.value.Valid()
      modifies if cache.Some? then {cache.value} else {}
      ensures cache.Some? ==> cache.value.Valid()
      ensures cache.Some? ==> cache.value.items == old(cache.value.items) - {ProxyConfig(Unsigned(id))}
    {
      if cache.Some? {
        cache.value.Delete(ProxyConfig(Unsigned(id)));
      }
    }
  }

  // ---- Whole runs against the repository alone ----

  /** One operation at a time; `lost` are the entries that expire or are evicted before it, `kept` says whether a value
      stored by it stays. */
  datatype Event = Event(op: Operation, conditions: Conditions, now: int, lost: set<Key>, kept: bool)

  function Cached(r: Repo, items: Items, e: Event): (Repo, Items, Answer) {
    var left := items - e.lost;
    var (after, answer) := Uncached(r, e.op, e.conditions);
    match e.op
    case Create(_) => (after, left, answer)
    case Update(settings) => (after, if answer.Done? then left - {ProxyConfig(Unsigned(settings.id))} else left, answer)
    case Delete(id) => (after, if answer.Done? then left - {ProxyConfig(Unsigned(id))} else left, answer)
    case Get(id) =>
      var k := ProxyConfig(id);
      if k in left && !Expired(left[k], e.now) then (r, left, Found(left[k].value.settings))
      else if answer.Found? && e.kept && id in r.rows then (r, left[k := Item(r.rows[id], e.now + TTL)], answer)
      else (r, left, answer)
  }

  function CachedRun(r: Repo, events: seq<Event>): (Repo, Items) {
    if events == [] then (r, map[])
    else
      var (before, items) := CachedRun(r, events[..|events| - 1]);
      var (after, left, _) := Cached(before, items, events[|events| - 1]);
      (after, left)
  }

  function UncachedRun(r: Repo, events: seq<Event>): Repo {
    if events == [] then r
    else Uncached(UncachedRun(r, events[..|events| - 1]), events[|events| - 1].op, events[|events| - 1].conditions).0
  }

  lemma EventKeepsCoherence(r: Repo, items: Items, e: Event)
    requires SoundRepo(r) && Coherent(r, items)
    requires r.next < TWO_64
    ensures var (after, left, answer) := Cached(r, items, e);
            && SoundRepo(after) && Coherent(after, left) && after == Uncached(r, e.op, e.conditions).0
            && (e.conditions.database ==> answer == Uncached(r, e.op, e.conditions).1)
            && r.next <= after.next <= r.next + 1
  {
  }

  /** After any sequence of operations, whatever expires or is evicted on the way, the table is the one an uncached
      manager would have, and the next operation gets the same answer (while the database works). */
  lemma {:induction false} CachedRefinesUncached(r: Repo, events: seq<Event>, next: Event)
    requires SoundRepo(r) && r.next + |events| < TWO_64
    ensures var (repo, items) := CachedRun(r, events);
            && repo == UncachedRun(r, events) && SoundRepo(repo) && Coherent(repo, items)
                && repo.next <= r.next + |events|
            && (next.conditions.database ==>
                  Cached(repo, items, next).2 == Uncached(UncachedRun(r, events), next.op, next.conditions).1)
  {
    hide SoundRepo, Coherent, Cached, Uncached;
    if events == [] {
      EmptyCacheCoherent(r);
    } else {
      var init := events[..|events| - 1];
      CachedRefinesUncached(r, init, next);
      EventKeepsCoherence(CachedRun(r, init).0, CachedRun(r, init).1, events[|events| - 1]);
    }
    EventKeepsCoherence(CachedRun(r, events).0, CachedRun(r, events).1, next);
  }

  lemma EmptyCacheCoherent(r: Repo)
    ensures Coherent(r, map[])
  {
  }

  /** Invalidation hits the entry that lookups use exactly for the IDs that are not negative: for a negative ID it would
      leave a stale entry behind. */
  lemma InvalidationHitsEntry(id: int)
    requires -TWO_64 / 2 <= id < TWO_64 / 2
    ensures ProxyConfig(Unsigned(id)) == ProxyConfig(id) <==> id >= 0
  {
  }

  // ---- Lookups that overlap other operations ----

  /** `inHand` are the rows of lookups that missed the cache, read the table and have not stored what they read. */
  datatype Shared = Shared(repo: Repo, items: Items, inHand: map<nat, Row>)

  /** An operation in one piece, or the two halves of a lookup: reading the row, and storing it in the cache. */
  datatype Step = Whole(event: Event) | BeginLookup(thread: nat, id: int) | FinishLookup(thread: nat, now: int, kept: bool)

  function Stepped(s: Shared, step: Step): Shared {
    match step
    case Whole(e) =>
      var (repo, items, _) := Cached(s.repo, s.items, e);
      s.(repo := repo, items := items)
    case BeginLookup(t, id) =>
      if id in s.repo.rows then s.(inHand := s.inHand[t := s.repo.rows[id]]) else s
    case FinishLookup(t, now, kept) =>
      if t !in s.inHand then s
      else
        var row := s.inHand[t];
        Shared(s.repo, if kept then s.items[ProxyConfig(row.settings.id) := Item(row, now + TTL)] else s.items, s.inHand - {t})
  }

  function SharedRun(r: Repo, steps: seq<Step>): Shared {
    if steps == [] then Shared(r, map[], map[]) else Stepped(SharedRun(r, steps[..|steps| - 1]), steps[|steps| - 1])
  }

  /** What the thread has read is still what the table holds. */
  ghost predicate FreshRead(s: Shared, thread: nat) {
    thread in s.inHand ==>
      var row := s.inHand[thread];
      row.settings.id in s.repo.rows && s.repo.rows[row.settings.id] == row
  }

  ghost predicate StoresFresh(s: Shared, step: Step) {
    step.FinishLookup? && step.kept ==> FreshRead(s, step.thread)
  }

  ghost predicate SoundShared(s: Shared, r: Repo, steps: nat) {
    SoundRepo(s.repo) && s.repo.next <= r.next + steps
  }

  lemma {:induction false} SharedStaysSound(r: Repo, steps: seq<Step>)
    requires SoundRepo(r) && r.next + |steps| < TWO_64
    ensures SoundShared(SharedRun(r, steps), r, |steps|)
  {
    if steps != [] {
      SharedStaysSound(r, steps[..|steps| - 1]);
      OperationStaysSound(SharedRun(r, steps[..|steps| - 1]), steps[|steps| - 1]);
    }
  }

  lemma OperationStaysSound(s: Shared, step: Step)
    requires SoundRepo(s.repo) && s.repo.next < TWO_64
    ensures SoundRepo(Stepped(s, step).repo) && Stepped(s, step).repo.next <= s.repo.next + 1
  {
  }

  lemma StepCoherence(s: Shared, step: Step)
    requires SoundRepo(s.repo) && s.repo.next < TWO_64 && Coherent(s.repo, s.items)
    ensures Coherent(Stepped(s, step).repo, Stepped(s, step).items) <==> StoresFresh(s, step)
  {
    match step
    case Whole(e) => EventKeepsCoherence(s.repo, s.items, e);
    case BeginLookup(_, _) =>
    case FinishLookup(t, now, kept) =>
      if t in s.inHand && kept {
        var key := ProxyConfig(s.inHand[t].settings.id);
        assert key in Stepped(s, step).items && Stepped(s, step).items[key].value == s.inHand[t];
      }
  }

  /** With lookups overlapping other operations, the cache is coherent at every moment of a run exactly when every lookup
      stores a row that the table still holds. */
  lemma {:induction false} CoherentExactlyWhenStoresFresh(r: Repo, steps: seq<Step>)
    requires SoundRepo(r) && r.next + |steps| < TWO_64
    ensures (forall k: nat | k <= |steps| :: CoherentAt(r, steps, k)) <==>
            (forall k: nat | k < |steps| :: StoresFreshAt(r, steps, k))
  {
    hide Coherent, SoundRepo, Stepped, StoresFresh;
    if forall k: nat | k <= |steps| :: CoherentAt(r, steps, k) {
      forall k: nat | k < |steps| ensures StoresFreshAt(r, steps, k) {
        assert CoherentAt(r, steps, k) && CoherentAt(r, steps, k + 1);
        OneStep(r, steps, k);
      }
    }
    if forall k: nat | k < |steps| :: StoresFreshAt(r, steps, k) {
      forall k: nat | k <= |steps| ensures CoherentAt(r, steps, k) {
        StaysCoherent(r, steps, k);
      }
    }
  }

  ghost predicate CoherentAt(r: Repo, steps: seq<Step>, k: nat)
    requires k <= |steps|
  {
    Coherent(SharedRun(r, steps[..k]).repo, SharedRun(r, steps[..k]).items)
  }

  ghost predicate StoresFreshAt(r: Repo, steps: seq<Step>, k: nat)
    requires k < |steps|
  {
    StoresFresh(SharedRun(r, steps[..k]), steps[k])
  }

  lemma OneStep(r: Repo, steps: seq<Step>, k: nat)
    requires SoundRepo(r) && r.next + |steps| < TWO_64 && k < |steps| && CoherentAt(r, steps, k)
    ensures CoherentAt(r, steps, k + 1) <==> StoresFreshAt(r, steps, k)
  {
    hide Coherent, Stepped, StoresFresh;
    assert steps[..k + 1][..k] == steps[..k];
    SharedStaysSound(r, steps[..k]);
    StepCoherence(SharedRun(r, steps[..k]), steps[k]);
  }

  lemma {:induction false} StaysCoherent(r: Repo, steps: seq<Step>, k: nat)
    requires SoundRepo(r) && r.next + |steps| < TWO_64 && k <= |steps|
    requires forall i: nat | i < |steps| :: StoresFreshAt(r, steps, i)
    ensures CoherentAt(r, steps, k)
  {
    if k > 0 {
      StaysCoherent(r, steps, k - 1);
      OneStep(r, steps, k - 1);
    } else {
      EmptyCacheCoherent(r);
    }
  }

  /** The settings of a row after the given steps: those of the last successful update, None after a successful delete. */
  function LastWritten(steps: seq<Step>, id: int, before: Settings): Option<Settings> {
    if steps == [] then Some(before)
    else
      var earlier := LastWritten(steps[..|steps| - 1], id, before);
      match steps[|steps| - 1]
      case Whole(e) =>
        if earlier.None? || !e.conditions.database then earlier
        else if e.op.Delete? && e.op.id == id then None
        else if e.op.Update? && e.op.settings.id == id && e.conditions.valid then Some(e.op.settings)
        else earlier
      case _ => earlier
  }

  lemma {:induction false} TableHoldsLastWritten(s: Shared, steps: seq<Step>, id: int)
    requires SoundRepo(s.repo) && s.repo.next + |steps| < TWO_64 && id in s.repo.rows
    ensures var v := Replayed(s, steps);
            && SoundRepo(v.repo) && v.repo.next <= s.repo.next + |steps| && id < v.repo.next
            && match LastWritten(steps, id, s.repo.rows[id].settings)
               case None => id !in v.repo.rows
               case Some(settings) => id in v.repo.rows && v.repo.rows[id] == s.repo.rows[id].(settings := settings)
  {
    if steps != [] {
      var init := steps[..|steps| - 1];
      TableHoldsLastWritten(s, init, id);
      OperationStaysSound(Replayed(s, init), steps[|steps| - 1]);
    }
  }

  function Replayed(s: Shared, steps: seq<Step>): Shared {
    if steps == [] then s else Stepped(Replayed(s, steps[..|steps| - 1]), steps[|steps| - 1])
  }

  lemma {:induction false} ReadIsKept(s: Shared, steps: seq<Step>, thread: nat)
    requires thread in s.inHand && forall step | step in steps :: step.Whole? || step.thread != thread
    ensures thread in Replayed(s, steps).inHand && Replayed(s, steps).inHand[thread] == s.inHand[thread]
  {
    if steps != [] {
      ReadIsKept(s, steps[..|steps| - 1], thread);
      assert steps[|steps| - 1] in steps;
    }
  }

  /** A lookup that reads a row, and stores it after any steps of others, leaves a coherent cache coherent exactly when the
      row was not deleted in between and the last update in between, if any, wrote the settings that were read. */
  lemma OverlapIsHarmlessExactlyWhen(s: Shared, thread: nat, id: int, steps: seq<Step>, now: int)
    requires SoundRepo(s.repo) && s.repo.next + |steps| < TWO_64 && id in s.repo.rows
    requires forall step | step in steps :: step.Whole? || step.thread != thread
    requires var v := Replayed(Stepped(s, BeginLookup(thread, id)), steps); Coherent(v.repo, v.items)
    ensures var v := Replayed(Stepped(s, BeginLookup(thread, id)), steps);
            var after := Stepped(v, FinishLookup(thread, now, true));
            Coherent(after.repo, after.items) <==>
              LastWritten(steps, id, s.repo.rows[id].settings) == Some(s.repo.rows[id].settings)
  {
    var begun := Stepped(s, BeginLookup(thread, id));
    var v := Replayed(begun, steps);
    TableHoldsLastWritten(begun, steps, id);
    ReadIsKept(begun, steps, thread);
    hide Coherent, LastWritten, Replayed, SoundRepo;
    assert begun.inHand[thread] == s.repo.rows[id] && s.repo.rows[id].settings.id == id by { RowKnowsItsID(s.repo, id); }
    StepCoherence(v, FinishLookup(thread, now, true));
  }

  lemma RowKnowsItsID(r: Repo, id: int)
    requires SoundRepo(r) && id in r.rows
    ensures r.rows[id].settings.id == id
  {
  }

  /** In particular: without a successful update or delete of the row in between there is no harm, and after a single
      update to other settings the next lookup answers with the old ones. */
  lemma {:induction false} UntouchedRowIsSafe(steps: seq<Step>, id: int, before: Settings)
    requires forall step | step in steps && step.Whole? ::
               !(step.event.op.Delete? && step.event.op.id == id) && !(step.event.op.Update? && step.event.op.settings.id == id)
    ensures LastWritten(steps, id, before) == Some(before)
  {
    if steps != [] {
      assert steps[|steps| - 1] in steps;
      UntouchedRowIsSafe(steps[..|steps| - 1], id, before);
    }
  }

  lemma RacingLookupGoesStale(r: Repo, settings: Settings, now: int)
    requires SoundRepo(r) && r.next + 2 < TWO_64
    requires settings.id in r.rows && r.rows[settings.id].settings != settings
    ensures var c, id := Conditions(true, true), settings.id;
            var steps := [BeginLookup(0, id), Whole(Event(Update(settings), c, now, {}, true)), FinishLookup(0, now, true)];
            var s := SharedRun(r, steps);
            && !Coherent(s.repo, s.items)
            && Cached(s.repo, s.items, Event(Get(id), c, now, {}, true)).2 == Found(r.rows[id].settings)
            && Uncached(s.repo, Get(id), c).1 == Found(settings)
  {
    var c, id := Conditions(true, true), settings.id;
    var update := Whole(Event(Update(settings), c, now, {}, true));
    var steps := [BeginLookup(0, id), update, FinishLookup(0, now, true)];
    var s0 := Shared(r, map[], map[]);
    assert steps[..2][..1][..0] == [] && SharedRun(r, []) == s0;
    assert steps[..2][..1] == [BeginLookup(0, id)] && SharedRun(r, steps[..2][..1]) == Stepped(s0, BeginLookup(0, id));
    assert steps[..2][1] == update && steps[..2] == steps[..|steps| - 1];
    var s2 := Stepped(Stepped(s0, BeginLookup(0, id)), update);
    assert SharedRun(r, steps[..2]) == s2;
    assert s2.inHand[0] == r.rows[id] && s2.repo.rows[id].settings == settings;
    assert ProxyConfig(id) in SharedRun(r, steps).items;
  }
}
