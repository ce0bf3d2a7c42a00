/** The instance store as it is kept: metadata, fences, 64-bit revisions and ten
    route indexes, updated in place.  `view` is its meaning; `Valid` says that the
    indexes hold exactly what the view says is reachable. */
module InstanceStore {
  import opened Metadata
  import opened Basics
  import opened RouteView
  import opened RouteHistory

  type Pair = (string, string)

  // ---- the ten indexes as one value ---------------------------------------------------

  datatype PairIndexes = PairIndexes(
    postgres: map<Pair, string>,
    mariadb: map<Pair, string>,
    mysql: map<Pair, string>,
    mongodb: map<Pair, string>,
    clickhouse: map<Pair, string>
  )

  datatype RespIndexes = RespIndexes(names: map<string, string>, passwords: map<string, set<string>>)

  datatype RouteIndexes = RouteIndexes(
    pairs: PairIndexes, redis: RespIndexes, valkey: RespIndexes, qdrant: map<string, string>)

  predicate HasPairs(protocol: Protocol) {
    protocol in {Postgres, Mariadb, Mysql, Mongodb, Clickhouse}
  }

  function PairIndex(pairs: PairIndexes, protocol: Protocol): map<Pair, string>
    requires HasPairs(protocol)
  {
    match protocol
    case Postgres => pairs.postgres
    case Mariadb => pairs.mariadb
    case Mysql => pairs.mysql
    case Mongodb => pairs.mongodb
    case Clickhouse => pairs.clickhouse
  }

  function RespIndex(ix: RouteIndexes, protocol: Protocol): RespIndexes
    requires HasPasswords(protocol)
  {
    if protocol == Redis then ix.redis else ix.valkey
  }

  /** The answer of the keyed index that serves `slot`. */
  function Lookup(ix: RouteIndexes, slot: Slot): Option<string> {
    match slot
    case PairSlot(p, u, d) => if HasPairs(p) then Get(PairIndex(ix.pairs, p), (u, d)) else None
    case NameSlot(p, u) => if HasPasswords(p) then Get(RespIndex(ix, p).names, u) else None
    case KeySlot(k) => Get(ix.qdrant, k)
  }

  /** A password index entry, absent meaning empty. */
  function PasswordEntry(index: map<string, set<string>>, hash: string): set<string> {
    if hash in index then index[hash] else {}
  }

  predicate NoEmptySets(index: map<string, set<string>>) {
    forall h <- index :: index[h] != {}
  }

  ghost predicate KeysMatch(ix: RouteIndexes, v: View) {
    forall slot :: Lookup(ix, slot) == Routed(v, slot)
  }

  ghost predicate PasswordsMatch(index: map<string, set<string>>, v: View, protocol: Protocol) {
    NoEmptySets(index) && forall h :: PasswordEntry(index, h) == PasswordIds(v, protocol, h)
  }

  /** The ten indexes hold exactly what the view says is reachable. */
  ghost predicate Refines(ix: RouteIndexes, v: View) {
    KeysMatch(ix, v) && PasswordsMatch(ix.redis.passwords, v, Redis) && PasswordsMatch(ix.valkey.passwords, v, Valkey)
  }

  function Drop<K>(routes: map<K, string>, id: string): map<K, string> {
    map k | k in routes && routes[k] != id :: routes[k]
  }

  function DropPasswords(routes: map<string, set<string>>, id: string): map<string, set<string>> {
    map h | h in routes && routes[h] - {id} != {} :: routes[h] - {id}
  }

  function AddPassword(routes: map<string, set<string>>, hash: Option<string>, id: string): map<string, set<string>> {
    if hash.None? then routes else routes[hash.value := PasswordEntry(routes, hash.value) + {id}]
  }

  function PairsWithoutId(pairs: PairIndexes, id: string): PairIndexes {
    PairIndexes(Drop(pairs.postgres, id), Drop(pairs.mariadb, id), Drop(pairs.mysql, id),
                Drop(pairs.mongodb, id), Drop(pairs.clickhouse, id))
  }

  function RespWithoutId(resp: RespIndexes, id: string): RespIndexes {
    RespIndexes(Drop(resp.names, id), DropPasswords(resp.passwords, id))
  }

  /** `remove_routes_for`. */
  function WithoutId(ix: RouteIndexes, id: string): RouteIndexes {
    RouteIndexes(PairsWithoutId(ix.pairs, id), RespWithoutId(ix.redis, id), RespWithoutId(ix.valkey, id),
                 Drop(ix.qdrant, id))
  }

  function WithPair(pairs: PairIndexes, protocol: Protocol, key: Pair, id: string): PairIndexes
    requires HasPairs(protocol)
  {
    match protocol
    case Postgres => pairs.(postgres := pairs.postgres[key := id])
    case Mariadb => pairs.(mariadb := pairs.mariadb[key := id])
    case Mysql => pairs.(mysql := pairs.mysql[key := id])
    case Mongodb => pairs.(mongodb := pairs.mongodb[key := id])
    case Clickhouse => pairs.(clickhouse := pairs.clickhouse[key := id])
  }

  function WithResp(resp: RespIndexes, m: Instance): RespIndexes {
    RespIndexes(resp.names[m.username := m.id], AddPassword(resp.passwords, m.passwordHash, m.id))
  }

  /** `publish_routes`. */
  function WithRoutesOf(ix: RouteIndexes, m: Instance): RouteIndexes {
    match m.protocol
    case Qdrant => if m.routeKey.Some? then ix.(qdrant := ix.qdrant[m.routeKey.value := m.id]) else ix
    case Redis => ix.(redis := WithResp(ix.redis, m))
    case Valkey => ix.(valkey := WithResp(ix.valkey, m))
    case _ => ix.(pairs := WithPair(ix.pairs, m.protocol, (m.username, m.database), m.id))
  }

  /** Removal takes out the keys that named the instance and no other. */
  lemma LookupWithoutId(ix: RouteIndexes, id: string, slot: Slot)
    ensures Lookup(WithoutId(ix, id), slot) == if Lookup(ix, slot) == Some(id) then None else Lookup(ix, slot)
  {
  }

  lemma LookupWithPair(pairs: PairIndexes, p: Protocol, key: Pair, id: string, q: Protocol, k: Pair)
    requires HasPairs(p) && HasPairs(q)
    ensures Get(PairIndex(WithPair(pairs, p, key, id), q), k) ==
            if (p, key) == (q, k) then Some(id) else Get(PairIndex(pairs, q), k)
  {
  }

  /** Publishing adds the instance's one key and disturbs no other. */
  lemma LookupWithRoutesOf(ix: RouteIndexes, m: Instance, slot: Slot)
    ensures Lookup(WithRoutesOf(ix, m), slot) == if SlotOf(m) == Some(slot) then Some(m.id) else Lookup(ix, slot)
  {
    if HasPairs(m.protocol) && slot.PairSlot? && HasPairs(slot.protocol) {
      LookupWithPair(ix.pairs, m.protocol, (m.username, m.database), m.id,
                     slot.protocol, (slot.username, slot.database));
    }
  }

  /** The indexes after an operation on `t` that left the view as `w`. */
  function Reindexed(ix: RouteIndexes, w: View, t: string): RouteIndexes {
    if Open(w, t) then WithRoutesOf(WithoutId(ix, t), w.instances[t]) else WithoutId(ix, t)
  }

  lemma KeysFollow(ix: RouteIndexes, v: View, op: Op, slot: Slot)
    requires Consistent(v) && Lookup(ix, slot) == Routed(v, slot)
    ensures Lookup(Reindexed(ix, Apply(v, op), Target(op)), slot) == Routed(Apply(v, op), slot)
  {
    var t := Target(op);
    PublicationsAfter(v, op);
    ApplyKeepsConsistent(v, op);
    RoutedAfter(v, op, slot);
    LookupWithoutId(ix, t, slot);
    if Open(Apply(v, op), t) { LookupWithRoutesOf(WithoutId(ix, t), Apply(v, op).instances[t], slot); }
  }

  /** The passwords of one protocol after the same operation. */
  function PasswordsAfter(index: map<string, set<string>>, w: View, t: string, protocol: Protocol)
    : map<string, set<string>>
  {
    if Open(w, t) && w.instances[t].protocol == protocol
    then AddPassword(DropPasswords(index, t), w.instances[t].passwordHash, w.instances[t].id)
    else DropPasswords(index, t)
  }

  lemma EntryAfterDrop(index: map<string, set<string>>, id: string, h: string)
    ensures PasswordEntry(DropPasswords(index, id), h) == PasswordEntry(index, h) - {id}
    ensures NoEmptySets(DropPasswords(index, id))
  {
  }

  lemma EntryAfterAdd(index: map<string, set<string>>, hash: Option<string>, id: string, h: string)
    ensures PasswordEntry(AddPassword(index, hash, id), h)
            == PasswordEntry(index, h) + (if hash == Some(h) then {id} else {})
    ensures NoEmptySets(index) ==> NoEmptySets(AddPassword(index, hash, id))
  {
  }

  lemma EntryFollows(index: map<string, set<string>>, v: View, op: Op, protocol: Protocol, h: string)
    requires Consistent(v) && PasswordEntry(index, h) == PasswordIds(v, protocol, h)
    ensures PasswordEntry(PasswordsAfter(index, Apply(v, op), Target(op), protocol), h)
            == PasswordIds(Apply(v, op), protocol, h)
    ensures NoEmptySets(PasswordsAfter(index, Apply(v, op), Target(op), protocol))
  {
    var w, t := Apply(v, op), Target(op);
    ApplyKeepsConsistent(v, op);
    PasswordIdsAfter(v, op, protocol, h);
    EntryAfterDrop(index, t, h);
    if Open(w, t) { EntryAfterAdd(DropPasswords(index, t), w.instances[t].passwordHash, w.instances[t].id, h); }
  }

  lemma PasswordsFollow(index: map<string, set<string>>, v: View, op: Op, protocol: Protocol)
    requires Consistent(v) && PasswordsMatch(index, v, protocol)
    ensures PasswordsMatch(PasswordsAfter(index, Apply(v, op), Target(op), protocol), Apply(v, op), protocol)
  {
    EntryFollows(index, v, op, protocol, "");
    forall h ensures PasswordEntry(PasswordsAfter(index, Apply(v, op), Target(op), protocol), h)
                     == PasswordIds(Apply(v, op), protocol, h) {
      EntryFollows(index, v, op, protocol, h);
    }
  }

  lemma ReindexedPasswords(ix: RouteIndexes, w: View, t: string)
    ensures Reindexed(ix, w, t).redis.passwords == PasswordsAfter(ix.redis.passwords, w, t, Redis)
    ensures Reindexed(ix, w, t).valkey.passwords == PasswordsAfter(ix.valkey.passwords, w, t, Valkey)
  {
  }

  /** Taking an instance's routes out, then publishing it if the operation left
      it open, keeps all ten indexes in step with the view: the proof behind
      every method below. */
  lemma IndexesFollow(ix: RouteIndexes, v: View, op: Op)
    requires Consistent(v) && Refines(ix, v)
    ensures Refines(Reindexed(ix, Apply(v, op), Target(op)), Apply(v, op))
  {
    forall slot ensures Lookup(Reindexed(ix, Apply(v, op), Target(op)), slot) == Routed(Apply(v, op), slot) {
      KeysFollow(ix, v, op, slot);
    }
    PasswordsFollow(ix.redis.passwords, v, op, Redis);
    PasswordsFollow(ix.valkey.passwords, v, op, Valkey);
    ReindexedPasswords(ix, Apply(v, op), Target(op));
  }

  /** The revisions the gateway compares. */
  function Revisions(stamps: map<string, nat>): map<string, nat> {
    map id | id in stamps :: Revision(stamps[id])
  }

  lemma RevisionsAfter(stamps: map<string, nat>, id: string, stamp: nat)
    ensures Revisions(stamps[id := stamp]) == Revisions(stamps)[id := Revision(stamp)]
    ensures Revisions(stamps - {id}) == Revisions(stamps) - {id}
    ensures stamps[id := stamp] - {id} == stamps - {id}
  {
  }

  lemma RefinesIgnoresPins(ix: RouteIndexes, v: View, pinned: set<string>)
    requires Refines(ix, v)
    ensures Refines(ix, v.(pinned := pinned))
  {
    var w := v.(pinned := pinned);
    assert forall slot :: Routed(w, slot) == Routed(v, slot);
    assert forall p, h :: PasswordIds(w, p, h) == PasswordIds(v, p, h);
  }

  // ---- lookups ------------------------------------------------------------------------

  datatype RouteTarget = RouteTarget(
    id: string, generation: string, backend: Backend, limit: Option<nat>, revision: nat)

  /** What the gateway may rely on: the target is the instance's, its revision is
      current, and its quota is the instance's own. */
  predicate TargetOf(v: View, id: string, t: RouteTarget) {
    Describes(v, id, t) && RouteIsCurrent(v, id, t.revision)
  }

  predicate Describes(v: View, id: string, t: RouteTarget) {
    && id in v.instances && t.id == id
    && t.generation == v.instances[id].generation && t.backend == v.instances[id].backend
    && t.limit == ConnectionLimit(v.instances[id])
  }

  datatype KeyResolution = Found(database: string, id: string) | NotFound | Ambiguous

  predicate Reaches(v: View, protocol: Protocol, username: string, database: string) {
    Routed(v, PairSlot(protocol, username, database)).Some?
  }

  /** The one database the username alone identifies. */
  ghost predicate OnlyReaches(v: View, protocol: Protocol, username: string, database: string) {
    && Reaches(v, protocol, username, database)
    && forall d :: Reaches(v, protocol, username, d) ==> d == database
  }

  lemma IndexedMeansReached(ix: RouteIndexes, v: View, protocol: Protocol, username: string)
    requires KeysMatch(ix, v) && HasPairs(protocol)
    ensures var index := PairIndex(ix.pairs, protocol);
            && (forall d :: (username, d) in index <==> Reaches(v, protocol, username, d))
            && ((forall k <- index :: k.0 != username) <==> forall d :: !Reaches(v, protocol, username, d))
            && forall d :: (username, d) in index && (forall k <- index :: k.0 == username ==> k.1 == d)
                           <==> OnlyReaches(v, protocol, username, d)
  {
    var index := PairIndex(ix.pairs, protocol);
    forall d ensures (username, d) in index <==> Reaches(v, protocol, username, d) {
      assert Lookup(ix, PairSlot(protocol, username, d)) == Routed(v, PairSlot(protocol, username, d));
    }
    forall k <- index ensures k.0 == username ==> Reaches(v, protocol, username, k.1) {
      assert k == (k.0, k.1);
    }
  }

  /** An explicit database name is looked up exactly; otherwise the username must
      identify a single route. */
  method ResolveDatabaseRoute(routes: map<Pair, string>, username: string, database: Option<string>)
    returns (r: KeyResolution)
    ensures database.Some? && database.value != "" ==>
              r == if (username, database.value) in routes
                   then Found(database.value, routes[(username, database.value)]) else NotFound
    ensures database.None? || database.value == "" ==>
              && (r.NotFound? <==> forall k <- routes :: k.0 != username)
              && (r.Found? <==>
                    exists d :: (username, d) in routes && forall k <- routes :: k.0 == username ==> k.1 == d)
              && (r.Found? ==> (username, r.database) in routes && routes[(username, r.database)] == r.id)
  {
    if database.Some? && database.value != "" {
      var lookup := (username, database.value);
      return if lookup in routes then Found(database.value, routes[lookup]) else NotFound;
    }
    var unseen := routes.Keys;
    r := NotFound;
    while unseen != {}
      invariant unseen <= routes.Keys && !r.Ambiguous?
      invariant r.NotFound? ==> forall k <- routes :: k !in unseen ==> k.0 != username
      invariant r.Found? ==>
          && (username, r.database) in routes - unseen && routes[(username, r.database)] == r.id
          && forall k <- routes :: k !in unseen && k.0 == username ==> k.1 == r.database
      decreases |unseen|
    {
      var k :| k in unseen;
      unseen := unseen - {k};
      if k.0 == username {
        if r.Found? { return Ambiguous; }
        r := Found(k.1, routes[k]);
      }
    }
  }

  class InstanceState {
    var instances: map<string, Instance>
    var fencedInstances: set<string>
    var pinnedFences: set<string>
    var routeRevisions: map<string, nat>
    var nextRouteRevision: nat
    var routes: RouteIndexes
    ghost var view: View

    ghost predicate Valid()
      reads this
    {
      && Consistent(view)
      && instances == view.instances
      && fencedInstances == view.fenced
      && pinnedFences == view.pinned
      && routeRevisions == Revisions(view.stamps)
      && nextRouteRevision == Revision(view.bumps)
      && Refines(routes, view)
    }

    constructor ()
      ensures Valid() && view == EMPTY
    {
      instances, fencedInstances, pinnedFences := map[], {}, {};
      routeRevisions, nextRouteRevision := map[], 0;
      routes := RouteIndexes(PairIndexes(map[], map[], map[], map[], map[]),
                             RespIndexes(map[], map[]), RespIndexes(map[], map[]), map[]);
      view := EMPTY;
    }

    method BumpRouteRevision(id: string)
      requires nextRouteRevision == Revision(view.bumps) && routeRevisions == Revisions(view.stamps)
      modifies this`nextRouteRevision, this`routeRevisions
      ensures nextRouteRevision == Revision(view.bumps + 1)
      ensures routeRevisions == Revisions(Bump(view, id).stamps)
      ensures routeRevisions - {id} == Revisions(view.stamps - {id})
    {
      RevisionSteps(view.bumps);
      RevisionsAfter(view.stamps, id, view.bumps + 1);
      nextRouteRevision := NextRevision(nextRouteRevision);
      routeRevisions := routeRevisions[id := nextRouteRevision];
    }

    /** The view takes the step the fields have taken. */
    ghost method Follow(before: RouteIndexes, op: Op)
      requires Consistent(view) && Refines(before, view)
      requires var w := Apply(view, op);
               && routes == Reindexed(before, w, Target(op))
               && instances == w.instances && fencedInstances == w.fenced && pinnedFences == w.pinned
               && routeRevisions == Revisions(w.stamps)
               && nextRouteRevision == Revision(w.bumps)
      modifies this`view
      ensures Valid() && view == Apply(old(view), op)
    {
      ApplyKeepsConsistent(view, op);
      IndexesFollow(before, view, op);
      view := Apply(view, op);
    }

    method Upsert(m: Instance)
      requires Valid()
      modifies this
      ensures Valid() && view == Apply(old(view), Op.Upsert(m))
    {
      BumpRouteRevision(m.id);
      routes := WithoutId(routes, m.id);
      if m.id in pinnedFences {
        fencedInstances := fencedInstances + {m.id};
        instances := instances[m.id := m];
        Follow(old(routes), Op.Upsert(m));
        return;
      }
      fencedInstances := fencedInstances - {m.id};
      if RouteEligible(m) {
        routes := WithRoutesOf(routes, m);
      }
      instances := instances[m.id := m];
      Follow(old(routes), Op.Upsert(m));
    }

    method UpsertFenced(m: Instance)
      requires Valid()
      modifies this
      ensures Valid() && view == Apply(old(view), Op.UpsertFenced(m))
    {
      BumpRouteRevision(m.id);
      routes := WithoutId(routes, m.id);
      fencedInstances := fencedInstances + {m.id};
      instances := instances[m.id := m];
      Follow(old(routes), Op.UpsertFenced(m));
    }

    method UpsertPreservingFence(m: Instance)
      requires Valid()
      modifies this
      ensures Valid() && view == Apply(old(view), Op.UpsertPreservingFence(m))
    {
      var wasOpen := m.id in instances && RouteEligible(instances[m.id]) && m.id !in fencedInstances;
      if wasOpen {
        Upsert(m);
      } else {
        UpsertFenced(m);
      }
    }

    method OpenRoutes(m: Instance)
      requires Valid()
      modifies this
      ensures Valid() && view == Apply(old(view), Op.OpenRoutes(m))
    {
      RepinnedConsistent(view, view.pinned - {m.id});
      RefinesIgnoresPins(routes, view, view.pinned - {m.id});
      pinnedFences := pinnedFences - {m.id};
      view := view.(pinned := view.pinned - {m.id});
      Upsert(m);
    }

    method FenceExisting(id: string) returns (existed: bool)
      requires Valid()
      modifies this
      ensures Valid() && view == Apply(old(view), FenceRoutes(id))
      ensures existed <==> id in old(view).instances
    {
      if id !in instances {
        return false;
      }
      BumpRouteRevision(id);
      routes := WithoutId(routes, id);
      fencedInstances := fencedInstances + {id};
      Follow(old(routes), FenceRoutes(id));
      return true;
    }

    method PinRoutesFenced(id: string) returns (existed: bool)
      requires Valid()
      modifies this
      ensures Valid() && view == Apply(old(view), Op.PinRoutesFenced(id))
      ensures existed <==> id in old(view).instances
    {
      existed := FenceExisting(id);
      if existed {
        ApplyKeepsConsistent(old(view), Op.PinRoutesFenced(id));
        RefinesIgnoresPins(routes, view, view.pinned + {id});
        pinnedFences := pinnedFences + {id};
        view := view.(pinned := view.pinned + {id});
      }
    }

    method Remove(id: string) returns (removed: Option<Instance>)
      requires Valid()
      modifies this
      ensures Valid() && view == Apply(old(view), Op.Remove(id))
      ensures removed == Get(old(view).instances, id)
    {
      BumpRouteRevision(id);
      routes := WithoutId(routes, id);
      fencedInstances := fencedInstances - {id};
      pinnedFences := pinnedFences - {id};
      routeRevisions := routeRevisions - {id};
      removed := Get(instances, id);
      instances := instances - {id};
      Follow(old(routes), Op.Remove(id));
    }

    /** Fills a fresh state from durable metadata; revisions restart. */
    static method FromInstances(loaded: seq<Instance>) returns (state: InstanceState)
      ensures fresh(state) && state.Valid() && state.view == Loaded(loaded)
    {
      state := new InstanceState();
      for i := 0 to |loaded|
        invariant fresh(state) && state.Valid() && state.view == Loaded(loaded[..i])
      {
        state.Upsert(loaded[i]);
        assert loaded[..i + 1][..i] == loaded[..i];
      }
      assert loaded[..|loaded|] == loaded;
    }

    method IsCurrent(id: string, revision: nat) returns (current: bool)
      requires Valid()
      ensures current <==> RouteIsCurrent(view, id, revision)
    {
      current := id !in fencedInstances && Get(routeRevisions, id) == Some(revision);
    }

    method RouteTargetFor(id: string) returns (r: Option<RouteTarget>)
      requires Valid()
      ensures r.Some? <==> id in view.instances
      ensures r.Some? ==> Describes(view, id, r.value) && r.value.revision == Revision(view.stamps[id])
    {
      if id !in instances { return None; }
      var m := instances[id];
      var revision := if id in routeRevisions then routeRevisions[id] else 0;
      r := Some(RouteTarget(m.id, m.generation, m.backend, ConnectionLimit(m), revision));
    }

    /** A key lookup (Redis, Valkey, MongoDB, Qdrant) finds exactly the open
        instance whose publication of that key is in force. */
    method ResolveKey(slot: Slot) returns (r: Option<RouteTarget>)
      requires Valid()
      ensures r.Some? <==> Routed(view, slot).Some?
      ensures r.Some? ==> var id := r.value.id;
              && Routed(view, slot) == Some(id)
              && Open(view, id) && SlotOf(view.instances[id]) == Some(slot)
              && TargetOf(view, id, r.value)
    {
      assert Lookup(routes, slot) == Routed(view, slot);
      var found := Lookup(routes, slot);
      if found.None? { return None; }
      assert Honest(view, slot, view.lastPublished[slot]);
      r := RouteTargetFor(found.value);
    }

    /** A database lookup (PostgreSQL, MariaDB, MySQL, ClickHouse) by name, or by
        username alone when that identifies one reachable database. */
    method ResolveDatabase(protocol: Protocol, username: string, database: Option<string>)
      returns (found: KeyResolution, target: Option<RouteTarget>)
      requires Valid() && HasPairs(protocol)
      ensures found.Found? <==> target.Some?
      ensures found.Found? ==>
                && Routed(view, PairSlot(protocol, username, found.database)) == Some(found.id)
                && Open(view, found.id) && TargetOf(view, found.id, target.value)
      ensures database.Some? && database.value != "" ==>
                && !found.Ambiguous?
                && (found.Found? ==> found.database == database.value)
                && (found.Found? <==> Reaches(view, protocol, username, database.value))
      ensures database.None? || database.value == "" ==>
                && (found.NotFound? <==> forall d :: !Reaches(view, protocol, username, d))
                && (found.Found? <==> exists d :: OnlyReaches(view, protocol, username, d))
    {
      var index := PairIndex(routes.pairs, protocol);
      IndexedMeansReached(routes, view, protocol, username);
      found := ResolveDatabaseRoute(index, username, database);
      target := None;
      if found.Found? {
        ghost var slot := PairSlot(protocol, username, found.database);
        assert Lookup(routes, slot) == Routed(view, slot);
        assert Honest(view, slot, view.lastPublished[slot]);
        target := RouteTargetFor(found.id);
      }
    }

    /** Password-only routing answers only when exactly one open instance of the
        protocol has that password. */
    method ResolvePassword(protocol: Protocol, hash: string) returns (r: Option<(string, RouteTarget)>)
      requires Valid() && HasPasswords(protocol)
      ensures r.Some? <==> |PasswordIds(view, protocol, hash)| == 1
      ensures r.Some? ==> var id := r.value.1.id;
              && PasswordIds(view, protocol, hash) == {id}
              && TargetOf(view, id, r.value.1) && r.value.0 == view.instances[id].username
    {
      var index := RespIndex(routes, protocol).passwords;
      assert PasswordEntry(RespIndex(routes, protocol).passwords, hash) == PasswordIds(view, protocol, hash);
      if hash !in index { return None; }
      var ids := index[hash];
      if |ids| != 1 { return None; }
      var id :| id in ids;
      SingleMember(ids, id);
      var target := RouteTargetFor(id);
      r := Some((instances[id].username, target.value));
    }
  }
}
