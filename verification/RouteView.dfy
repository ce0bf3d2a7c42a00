/** The meaning of the instance store.  A `View` has no route index: what is
    reachable follows from the metadata, the fences and the order of
    publications.  The class in InstanceState.dfy, with its ten indexes, is
    proved to refine it.

    Every store operation takes one stamp from an unbounded counter; the 64-bit
    revision the gateway compares is `Revision(stamp)`. */
module RouteView {
  import opened Metadata
  import opened Basics

  /** The key under which an instance is published, per protocol. */
  datatype Slot =
    | PairSlot(protocol: Protocol, username: string, database: string)
    | NameSlot(protocol: Protocol, username: string)
    | KeySlot(routeKey: string)

  function SlotOf(m: Instance): Option<Slot> {
    match m.protocol
    case Redis | Valkey => Some(NameSlot(m.protocol, m.username))
    case Qdrant => if m.routeKey.Some? then Some(KeySlot(m.routeKey.value)) else None
    case _ => Some(PairSlot(m.protocol, m.username, m.database))
  }

  datatype Publication = Publication(id: string, stamp: nat)

  datatype View = View(
    instances: map<string, Instance>,
    fenced: set<string>,
    pinned: set<string>,
    stamps: map<string, nat>,
    bumps: nat,
    lastPublished: map<Slot, Publication>
  )

  const EMPTY := View(map[], {}, {}, map[], 0, map[])

  // ---- 64-bit revisions ------------------------------------------------------

  const U64 := 0x1_0000_0000_0000_0000

  /** `wrapping_add(1).max(1)` on a u64. */
  function NextRevision(r: nat): nat {
    var wrapped := (r + 1) % U64;
    if wrapped < 1 then 1 else wrapped
  }

  /** The revision produced by the `stamp`-th bump. */
  function Revision(stamp: nat): nat {
    if stamp == 0 then 0 else (stamp - 1) % (U64 - 1) + 1
  }

  lemma RevisionSteps(stamp: nat)
    ensures Revision(stamp + 1) == NextRevision(Revision(stamp))
    ensures Revision(stamp) < U64
  {
  }

  /** Two revisions collide exactly when a whole number of counter periods lies
      between them: never within 2^64 - 2 bumps, always after 2^64 - 1. */
  lemma RevisionCollision(older: nat, newer: nat)
    requires 1 <= older <= newer
    ensures Revision(older) == Revision(newer) <==> (newer - older) % (U64 - 1) == 0
    ensures newer - older < U64 - 1 ==> (Revision(older) == Revision(newer) <==> older == newer)
  {
  }

  // ---- reachability ------------------------------------------------------------

  predicate Open(v: View, id: string) {
    id in v.instances && RouteEligible(v.instances[id]) && id !in v.fenced
  }

  /** A publication is in force until its instance is next touched. */
  predicate InForce(v: View, p: Publication) {
    p.id in v.stamps && v.stamps[p.id] == p.stamp
  }

  /** What the keyed index answers: the last publication, while it is in force. */
  function Routed(v: View, slot: Slot): Option<string> {
    if slot in v.lastPublished && InForce(v, v.lastPublished[slot])
    then Some(v.lastPublished[slot].id) else None
  }

  /** The protocols that also route by password alone. */
  predicate HasPasswords(protocol: Protocol) {
    protocol == Redis || protocol == Valkey
  }

  /** What the password index holds. */
  function PasswordIds(v: View, protocol: Protocol, hash: string): set<string> {
    set id | id in v.instances && Open(v, id)
             && v.instances[id].protocol == protocol
             && v.instances[id].passwordHash == Some(hash)
  }

  predicate RouteIsCurrent(v: View, id: string, revision: nat) {
    id !in v.fenced && id in v.stamps && Revision(v.stamps[id]) == revision
  }

  ghost predicate Consistent(v: View) {
    && (forall id <- v.instances :: v.instances[id].id == id)
    && v.pinned <= v.fenced <= v.instances.Keys
    && v.stamps.Keys == v.instances.Keys
    && (forall id <- v.stamps :: 1 <= v.stamps[id] <= v.bumps)
    && (forall slot <- v.lastPublished :: Honest(v, slot, v.lastPublished[slot]))
  }

  /** While a publication is in force its instance is open and owns the slot. */
  ghost predicate Honest(v: View, slot: Slot, p: Publication) {
    1 <= p.stamp <= v.bumps
    && (InForce(v, p) ==> Open(v, p.id) && SlotOf(v.instances[p.id]) == Some(slot))
  }

  // ---- operations --------------------------------------------------------------

  datatype Op =
    | Upsert(m: Instance)
    | UpsertFenced(m: Instance)
    | UpsertPreservingFence(m: Instance)
    | OpenRoutes(m: Instance)
    | FenceRoutes(id: string)
    | PinRoutesFenced(id: string)
    | Remove(id: string)

  function Target(op: Op): string {
    match op
    case FenceRoutes(id) => id
    case PinRoutesFenced(id) => id
    case Remove(id) => id
    case Upsert(m) => m.id
    case UpsertFenced(m) => m.id
    case UpsertPreservingFence(m) => m.id
    case OpenRoutes(m) => m.id
  }

  function Bump(v: View, id: string): View {
    v.(bumps := v.bumps + 1, stamps := v.stamps[id := v.bumps + 1])
  }

  function Published(v: View, m: Instance): View {
    var b := Bump(v, m.id);
    var slot := SlotOf(m);
    b.(fenced := v.fenced - {m.id},
       instances := v.instances[m.id := m],
       lastPublished := if RouteEligible(m) && slot.Some?
                        then v.lastPublished[slot.value := Publication(m.id, b.bumps)]
                        else v.lastPublished)
  }

  function StoredFenced(v: View, m: Instance): View {
    Bump(v, m.id).(fenced := v.fenced + {m.id}, instances := v.instances[m.id := m])
  }

  function Upserted(v: View, m: Instance): View {
    if m.id in v.pinned then StoredFenced(v, m) else Published(v, m)
  }

  function Fenced(v: View, id: string): View {
    if id in v.instances then Bump(v, id).(fenced := v.fenced + {id}) else v
  }

  function Removed(v: View, id: string): View {
    Bump(v, id).(fenced := v.fenced - {id}, pinned := v.pinned - {id},
                 stamps := v.stamps - {id}, instances := v.instances - {id})
  }

  function Apply(v: View, op: Op): View {
    match op
    case Upsert(m) => Upserted(v, m)
    case UpsertFenced(m) => StoredFenced(v, m)
    case UpsertPreservingFence(m) => if Open(v, m.id) then Upserted(v, m) else StoredFenced(v, m)
    case OpenRoutes(m) => Upserted(v.(pinned := v.pinned - {m.id}), m)
    case FenceRoutes(id) => Fenced(v, id)
    case PinRoutesFenced(id) =>
      if id in v.instances then Fenced(v, id).(pinned := v.pinned + {id}) else v
    case Remove(id) => Removed(v, id)
  }

  function Run(v: View, ops: seq<Op>): View
    decreases |ops|
  {
    if ops == [] then v else Run(Apply(v, ops[0]), ops[1..])
  }

  /** `replace_all`: a fresh state, counter included, filled by ordinary upserts. */
  function Loaded(instances: seq<Instance>): View {
    if instances == [] then EMPTY
    else Upserted(Loaded(instances[..|instances| - 1]), instances[|instances| - 1])
  }

  // ---- every operation keeps the view consistent ----------------------------------

  /** A fresh stamp on one instance leaves every other publication as it was. */
  lemma OthersStayHonest(v: View, w: View, id: string)
    requires Consistent(v)
    requires w.bumps == v.bumps + 1 && w.stamps - {id} == v.stamps - {id}
    requires id in w.stamps ==> w.stamps[id] == w.bumps
    requires w.instances - {id} == v.instances - {id} && w.fenced - {id} == v.fenced - {id}
    ensures forall slot <- v.lastPublished :: Honest(w, slot, v.lastPublished[slot])
  {
    forall slot <- v.lastPublished ensures Honest(w, slot, v.lastPublished[slot]) {
      var p := v.lastPublished[slot];
      assert Honest(v, slot, p);
      if p.id != id && InForce(w, p) {
        assert p.id in v.stamps - {id} <==> p.id in w.stamps - {id};
        assert (v.stamps - {id})[p.id] == (w.stamps - {id})[p.id];
        assert InForce(v, p) && Open(v, p.id);
        assert p.id in v.instances - {id} && p.id in w.instances - {id};
        assert (v.instances - {id})[p.id] == (w.instances - {id})[p.id];
        assert p.id !in v.fenced - {id};
      }
    }
  }

  lemma PublishedKeepsConsistent(v: View, m: Instance)
    requires Consistent(v) && m.id !in v.pinned
    ensures Consistent(Published(v, m))
  {
    var w := Published(v, m);
    OthersStayHonest(v, w, m.id);
    assert w.stamps.Keys == w.instances.Keys;
  }

  lemma StoredFencedKeepsConsistent(v: View, m: Instance)
    requires Consistent(v)
    ensures Consistent(StoredFenced(v, m))
  {
    var w := StoredFenced(v, m);
    OthersStayHonest(v, w, m.id);
    assert w.stamps.Keys == w.instances.Keys;
  }

  lemma FencedKeepsConsistent(v: View, id: string)
    requires Consistent(v)
    ensures Consistent(Fenced(v, id))
  {
    if id in v.instances { OthersStayHonest(v, Fenced(v, id), id); }
  }

  lemma RemovedKeepsConsistent(v: View, id: string)
    requires Consistent(v)
    ensures Consistent(Removed(v, id))
  {
    OthersStayHonest(v, Removed(v, id), id);
  }

  lemma RepinnedConsistent(v: View, pinned: set<string>)
    requires Consistent(v) && pinned <= v.fenced
    ensures Consistent(v.(pinned := pinned))
  {
    var w := v.(pinned := pinned);
    forall slot <- v.lastPublished ensures Honest(w, slot, v.lastPublished[slot]) {
      assert Honest(v, slot, v.lastPublished[slot]);
    }
  }

  lemma ApplyKeepsConsistent(v: View, op: Op)
    requires Consistent(v)
    ensures Consistent(Apply(v, op))
    ensures v.bumps <= Apply(v, op).bumps <= v.bumps + 1
  {
    match op
    case Upsert(m) =>
      if m.id in v.pinned { StoredFencedKeepsConsistent(v, m); } else { PublishedKeepsConsistent(v, m); }
    case UpsertFenced(m) => StoredFencedKeepsConsistent(v, m);
    case UpsertPreservingFence(m) =>
      if Open(v, m.id) { PublishedKeepsConsistent(v, m); } else { StoredFencedKeepsConsistent(v, m); }
    case OpenRoutes(m) =>
      RepinnedConsistent(v, v.pinned - {m.id});
      PublishedKeepsConsistent(v.(pinned := v.pinned - {m.id}), m);
    case FenceRoutes(id) => FencedKeepsConsistent(v, id);
    case PinRoutesFenced(id) =>
      FencedKeepsConsistent(v, id);
      if id in v.instances { RepinnedConsistent(Fenced(v, id), v.pinned + {id}); }
    case Remove(id) => RemovedKeepsConsistent(v, id);
  }

  lemma {:induction false} RunKeepsConsistent(v: View, ops: seq<Op>)
    requires Consistent(v)
    ensures Consistent(Run(v, ops))
    ensures v.bumps <= Run(v, ops).bumps <= v.bumps + |ops|
    decreases |ops|
  {
    if ops != [] {
      ApplyKeepsConsistent(v, ops[0]);
      RunKeepsConsistent(Apply(v, ops[0]), ops[1..]);
    }
  }

  lemma {:induction false} LoadedConsistent(instances: seq<Instance>)
    ensures Consistent(Loaded(instances))
    ensures Loaded(instances).bumps == |instances|
    ensures Loaded(instances).fenced == {}
  {
    if instances != [] {
      var n := |instances| - 1;
      LoadedConsistent(instances[..n]);
      ApplyKeepsConsistent(Loaded(instances[..n]), Upsert(instances[n]));
    }
  }
}
