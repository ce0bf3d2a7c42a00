/** What holds over whole histories of store operations. */
module RouteHistory {
  import opened Metadata
  import opened Basics
  import opened RouteView

  // ---- what each operation leaves behind -----------------------------------------------

  /** Afterwards the named instance is open exactly when the operation publishes
      eligible metadata: an upsert unless it is pinned, a preserving one only if it
      was open, an opening always. */
  lemma OpenAfter(v: View, op: Op)
    requires Consistent(v)
    ensures Open(Apply(v, op), Target(op)) <==>
            match op
            case Upsert(m) => RouteEligible(m) && m.id !in v.pinned
            case UpsertPreservingFence(m) => RouteEligible(m) && Open(v, m.id)
            case OpenRoutes(m) => RouteEligible(m)
            case _ => false
  {
  }

  /** What is stored about it: the metadata it was written with, the same as before,
      or, after a removal, nothing. */
  lemma StoredAfterOp(v: View, op: Op)
    requires Consistent(v)
    ensures Get(Apply(v, op).instances, Target(op)) ==
            match op
            case FenceRoutes(id) => Get(v.instances, id)
            case PinRoutesFenced(id) => Get(v.instances, id)
            case Remove(_) => None
            case _ => Some(op.m)
  {
  }

  /** Its fence and its pin. */
  lemma FenceAfter(v: View, op: Op)
    requires Consistent(v)
    ensures Target(op) in Apply(v, op).pinned <==>
            match op
            case PinRoutesFenced(id) => id in v.instances
            case OpenRoutes(_) => false
            case Remove(_) => false
            case _ => Target(op) in v.pinned
    ensures Target(op) in Apply(v, op).fenced <==>
            match op
            case Upsert(m) => m.id in v.pinned
            case UpsertFenced(_) => true
            case UpsertPreservingFence(m) => !Open(v, m.id)
            case FenceRoutes(id) => id in v.instances
            case PinRoutesFenced(id) => id in v.instances
            case _ => false
  {
  }

  /** A removed instance is gone without a trace, and nobody else notices. */
  lemma RemovedIsGone(v: View, id: string, other: string)
    requires Consistent(v) && other != id
    ensures var w := Apply(v, Remove(id));
            && id !in w.instances && id !in w.fenced && id !in w.pinned && id !in w.stamps && Unreachable(w, id)
            && Alike(v, w, other)
  {
    ApplyKeepsConsistent(v, Remove(id));
    ClosedIsUnfound(Apply(v, Remove(id)), id);
    OthersAlike(v, Remove(id), other);
  }

  /** A slot in terms of the metadata it stands for. */
  lemma SlotMeans(m: Instance, slot: Slot)
    ensures SlotOf(m) == Some(slot) <==>
            match slot
            case PairSlot(p, u, d) =>
              p !in {Redis, Valkey, Qdrant} && m.protocol == p && m.username == u && m.database == d
            case NameSlot(p, u) => p in {Redis, Valkey} && m.protocol == p && m.username == u
            case KeySlot(k) => m.protocol == Qdrant && m.routeKey == Some(k)
  {
  }

  /** The instance may be given traffic, in the terms of its metadata. */
  predicate FitForTraffic(v: View, id: string) {
    && id in v.instances && id !in v.fenced
    && v.instances[id].status == Running && v.instances[id].desired == WantRunning
    && !v.instances[id].diskLimitBlocked
  }

  /** In every history whatever a lookup answers with is stored, unfenced, running,
      meant to run and within its disk limit. */
  lemma OnlyFitIsFound(v: View, ops: seq<Op>, id: string)
    requires Consistent(v) && !FitForTraffic(Run(v, ops), id)
    ensures Unfound(Run(v, ops), id)
  {
    RunKeepsConsistent(v, ops);
    ClosedIsUnfound(Run(v, ops), id);
  }

  // ---- a current revision proves that nothing happened ------------------------------

  /** The instance has moved past `stamp`, or is gone. */
  predicate Stale(v: View, id: string, stamp: nat) {
    id in v.stamps ==> v.stamps[id] > stamp
  }

  predicate Untouched(ops: seq<Op>, id: string) {
    forall op <- ops :: Target(op) != id
  }

  lemma StaleStays(v: View, op: Op, id: string, stamp: nat)
    requires Stale(v, id, stamp) && stamp <= v.bumps
    ensures Stale(Apply(v, op), id, stamp)
  {
  }

  lemma TouchedIsStale(v: View, op: Op, id: string)
    requires Consistent(v) && id in v.instances && Target(op) == id
    ensures Stale(Apply(v, op), id, v.stamps[id])
  {
  }

  /** Everything the view says about one instance, its slots aside. */
  predicate Alike(v: View, w: View, id: string) {
    && (id in v.instances <==> id in w.instances)
    && (id in v.instances ==> w.instances[id] == v.instances[id])
    && (id in v.stamps <==> id in w.stamps)
    && (id in v.stamps ==> w.stamps[id] == v.stamps[id])
    && (id in v.fenced <==> id in w.fenced)
    && (id in v.pinned <==> id in w.pinned)
  }

  lemma OthersAlike(v: View, op: Op, id: string)
    requires Target(op) != id
    ensures Alike(v, Apply(v, op), id)
  {
  }

  lemma {:induction false} StaleForever(v: View, ops: seq<Op>, id: string, stamp: nat)
    requires Consistent(v) && Stale(v, id, stamp) && stamp <= v.bumps
    ensures Stale(Run(v, ops), id, stamp)
    decreases |ops|
  {
    if ops != [] {
      StaleStays(v, ops[0], id, stamp);
      ApplyKeepsConsistent(v, ops[0]);
      StaleForever(Apply(v, ops[0]), ops[1..], id, stamp);
    }
  }

  lemma StaleMeansNotCurrent(v: View, ops: seq<Op>, id: string, stamp: nat)
    requires Consistent(v) && Stale(v, id, stamp) && 1 <= stamp <= v.bumps
    requires Run(v, ops).bumps - stamp < U64 - 1
    ensures !RouteIsCurrent(Run(v, ops), id, Revision(stamp))
  {
    var w := Run(v, ops);
    StaleForever(v, ops, id, stamp);
    RunKeepsConsistent(v, ops);
    if id in w.stamps { RevisionCollision(stamp, w.stamps[id]); }
  }

  /** Whatever happens later, an unfenced instance's revision is still current if
      and only if no later operation named the instance; then its metadata is the
      very one that was resolved.  Holds while fewer than 2^64 - 1 revisions have
      been issued since, including across removal and re-creation. */
  lemma {:induction false} CurrentIffUntouched(v: View, ops: seq<Op>, id: string)
    requires Consistent(v) && id in v.instances && id !in v.fenced
    requires Run(v, ops).bumps - v.stamps[id] < U64 - 1
    ensures RouteIsCurrent(Run(v, ops), id, Revision(v.stamps[id])) <==> Untouched(ops, id)
    ensures Untouched(ops, id) ==>
              && id in Run(v, ops).instances && Run(v, ops).instances[id] == v.instances[id]
              && id in Run(v, ops).stamps && Run(v, ops).stamps[id] == v.stamps[id]
    decreases |ops|
  {
    if ops != [] {
      var w, rest := Apply(v, ops[0]), ops[1..];
      ApplyKeepsConsistent(v, ops[0]);
      RunKeepsConsistent(w, rest);
      if Target(ops[0]) == id {
        TouchedIsStale(v, ops[0], id);
        StaleMeansNotCurrent(w, rest, id, v.stamps[id]);
      } else {
        OthersAlike(v, ops[0], id);
        CurrentIffUntouched(w, rest, id);
        assert Untouched(ops, id) <==> Untouched(rest, id) by {
          assert ops == [ops[0]] + rest;
        }
      }
    }
  }

  // ---- rebuilds restart the counter --------------------------------------------------

  /** One more than the place of the instance's last entry, 0 if it has none. */
  function LastAt(list: seq<Instance>, id: string): nat {
    if list == [] then 0
    else
      var n := |list| - 1;
      if list[n].id == id then n + 1 else LastAt(list[..n], id)
  }

  lemma {:induction false} LoadedStamps(list: seq<Instance>, id: string)
    ensures var v, k := Loaded(list), LastAt(list, id);
            && k <= |list| && (id in v.stamps <==> k > 0) && (k > 0 ==> v.stamps[id] == k)
            && v.pinned == {} && v.fenced == {} && v.bumps == |list|
  {
    if list != [] { LoadedStamps(list[..|list| - 1], id); }
  }

  predicate PeriodsApart(a: nat, b: nat) {
    (if a <= b then b - a else a - b) % (U64 - 1) == 0
  }

  /** A revision issued before a rebuild is current after it if and only if the
      rebuild gives its instance that same number again: it is the place of the
      instance's last entry, up to whole counter periods. */
  lemma RebuildRevivesIff(list: seq<Instance>, id: string, stamp: nat)
    requires stamp >= 1
    ensures RouteIsCurrent(Loaded(list), id, Revision(stamp)) <==>
            LastAt(list, id) > 0 && PeriodsApart(stamp, LastAt(list, id))
    ensures stamp < U64 && |list| < U64 - 1 ==>
              (RouteIsCurrent(Loaded(list), id, Revision(stamp)) <==> stamp == LastAt(list, id))
  {
    LoadedStamps(list, id);
    var k := LastAt(list, id);
    if k > 0 {
      if stamp <= k { RevisionCollision(stamp, k); } else { RevisionCollision(k, stamp); }
    }
  }

  /** The number has been issued again, if at all, and not to the instance as it now
      stands. */
  predicate Spent(v: View, id: string, stamp: nat) {
    1 <= stamp <= v.bumps && (id in v.stamps ==> v.stamps[id] != stamp)
  }

  lemma SpentStays(v: View, op: Op, id: string, stamp: nat)
    requires Spent(v, id, stamp)
    ensures Spent(Apply(v, op), id, stamp)
  {
  }

  lemma {:induction false} SpentForever(v: View, ops: seq<Op>, id: string, stamp: nat)
    requires Consistent(v) && Spent(v, id, stamp) && Run(v, ops).bumps < U64
    ensures !RouteIsCurrent(Run(v, ops), id, Revision(stamp))
    decreases |ops|
  {
    if ops != [] {
      SpentStays(v, ops[0], id, stamp);
      ApplyKeepsConsistent(v, ops[0]);
      SpentForever(Apply(v, ops[0]), ops[1..], id, stamp);
    } else if id in v.stamps {
      var now := v.stamps[id];
      if stamp <= now { RevisionCollision(stamp, now); } else { RevisionCollision(now, stamp); }
    }
  }

  function Upserts(m: Instance, n: nat): seq<Op> {
    if n == 0 then [] else [Upsert(m)] + Upserts(m, n - 1)
  }

  /** Writing an instance again and again issues it every number in turn. */
  lemma {:induction false} UpsertsCountUp(v: View, m: Instance, n: nat)
    requires Consistent(v) && m.id !in v.pinned && n >= 1
    ensures var w := Run(v, Upserts(m, n));
            w.bumps == v.bumps + n && RouteIsCurrent(w, m.id, Revision(w.bumps))
    decreases n
  {
    var w := Apply(v, Upsert(m));
    assert Upserts(m, n)[1..] == Upserts(m, n - 1);
    ApplyKeepsConsistent(v, Upsert(m));
    if n > 1 { UpsertsCountUp(w, m, n - 1); } else { assert Upserts(m, 0) == []; }
  }

  lemma RevivedSomehow(list: seq<Instance>, id: string, stamp: nat) returns (ops: seq<Op>)
    requires 1 <= stamp < U64 && |list| < U64 && (stamp > |list| || stamp == LastAt(list, id))
    ensures Run(Loaded(list), ops).bumps < U64 && RouteIsCurrent(Run(Loaded(list), ops), id, Revision(stamp))
  {
    LoadedStamps(list, id);
    LoadedConsistent(list);
    if stamp == LastAt(list, id) {
      ops := [];
    } else {
      var m := Instance(id, "", Postgres, Running, WantRunning, false, Dedicated, UnixSocket(""),
                        "", "", None, None, 0);
      ops := Upserts(m, stamp - |list|);
      UpsertsCountUp(Loaded(list), m, stamp - |list|);
    }
  }

  /** A revision issued before a rebuild stays out of date through everything that may
      follow, until the restarted counter wraps, if and only if the rebuild itself used
      up its number, and for another entry. */
  lemma RebuildSafeIff(list: seq<Instance>, id: string, stamp: nat)
    requires 1 <= stamp < U64 && |list| < U64
    ensures (forall ops :: Run(Loaded(list), ops).bumps < U64 ==>
                             !RouteIsCurrent(Run(Loaded(list), ops), id, Revision(stamp)))
            <==> stamp <= |list| && stamp != LastAt(list, id)
  {
    var v := Loaded(list);
    if stamp <= |list| && stamp != LastAt(list, id) {
      LoadedStamps(list, id);
      LoadedConsistent(list);
      forall ops | Run(v, ops).bumps < U64 ensures !RouteIsCurrent(Run(v, ops), id, Revision(stamp)) {
        SpentForever(v, ops, id, stamp);
      }
    } else {
      var ops := RevivedSomehow(list, id, stamp);
    }
  }

  /** So a fence does not outlive a rebuild: any first publication, fenced off, is
      revived by a rebuild from its metadata alone. */
  lemma RebuildRevivesRevision(m: Instance)
    ensures var published := Apply(EMPTY, Upsert(m));
            var fenced := Apply(published, FenceRoutes(m.id));
            m.id in published.stamps
            && !RouteIsCurrent(fenced, m.id, Revision(published.stamps[m.id]))
            && RouteIsCurrent(Loaded([m]), m.id, Revision(published.stamps[m.id]))
  {
    assert LastAt([m], m.id) == 1;
    RebuildRevivesIff([m], m.id, 1);
  }

  /** And a second one, out of date at the rebuild, by the first upsert after it. */
  lemma RebuildRevivesLater(m: Instance)
    ensures var published := Apply(Apply(EMPTY, Upsert(m)), Upsert(m));
            var fenced := Apply(published, FenceRoutes(m.id));
            && m.id in published.stamps && published.stamps[m.id] == 2
            && RouteIsCurrent(published, m.id, Revision(2)) && !RouteIsCurrent(fenced, m.id, Revision(2))
            && !RouteIsCurrent(Loaded([m]), m.id, Revision(2))
            && RouteIsCurrent(Apply(Loaded([m]), Upsert(m)), m.id, Revision(2))
  {
    assert LastAt([m], m.id) == 1;
    LoadedStamps([m], m.id);
    RebuildRevivesIff([m], m.id, 2);
  }

  // ---- fences --------------------------------------------------------------------------

  /** The only operations that end a pinned fence. */
  predicate Unpins(op: Op, id: string) {
    Target(op) == id && (op.OpenRoutes? || op.Remove?)
  }

  /** No lookup finds the instance. */
  ghost predicate Unfound(v: View, id: string) {
    && (forall slot :: Routed(v, slot) != Some(id))
    && (forall protocol, hash :: id !in PasswordIds(v, protocol, hash))
  }

  ghost predicate Unreachable(v: View, id: string) {
    && Unfound(v, id)
    && (forall revision :: !RouteIsCurrent(v, id, revision))
  }

  lemma ClosedIsUnfound(v: View, id: string)
    requires Consistent(v) && !Open(v, id)
    ensures Unfound(v, id)
  {
    forall slot ensures Routed(v, slot) != Some(id) {
      if slot in v.lastPublished { assert Honest(v, slot, v.lastPublished[slot]); }
    }
  }

  lemma FencedIsUnreachable(v: View, id: string)
    requires Consistent(v) && id in v.fenced
    ensures Unreachable(v, id)
  {
    ClosedIsUnfound(v, id);
  }

  /** A pinned fence outlives every operation except the two that end it. */
  lemma {:induction false} PinnedFenceSurvives(v: View, ops: seq<Op>, id: string)
    requires Consistent(v) && id in v.pinned
    requires forall op <- ops :: !Unpins(op, id)
    ensures id in Run(v, ops).pinned && id in Run(v, ops).fenced
    ensures Unreachable(Run(v, ops), id)
    decreases |ops|
  {
    if ops == [] {
      FencedIsUnreachable(v, id);
    } else {
      assert ops[0] in ops;
      ApplyKeepsConsistent(v, ops[0]);
      PinnedFenceSurvives(Apply(v, ops[0]), ops[1..], id);
    }
  }

  /** From the pin itself: whatever state the instance was in, pinning it makes it
      unreachable until one of those two. */
  lemma PinnedUntilUnpinned(v: View, ops: seq<Op>, id: string)
    requires Consistent(v) && id in v.instances
    requires forall op <- ops :: !Unpins(op, id)
    ensures Unreachable(Run(Apply(v, PinRoutesFenced(id)), ops), id)
  {
    ApplyKeepsConsistent(v, PinRoutesFenced(id));
    FenceAfter(v, PinRoutesFenced(id));
    PinnedFenceSurvives(Apply(v, PinRoutesFenced(id)), ops, id);
  }

  /** And opening does end it: after any history an opening with eligible metadata
      makes the instance answer on its key. */
  lemma OpeningEndsPin(v: View, ops: seq<Op>, m: Instance)
    requires Consistent(v) && RouteEligible(m)
    ensures var w := Apply(Run(Apply(v, PinRoutesFenced(m.id)), ops), OpenRoutes(m));
            && Open(w, m.id) && m.id !in w.pinned && w.instances[m.id] == m
            && (SlotOf(m).Some? ==> Routed(w, SlotOf(m).value) == Some(m.id))
  {
    var u := Run(Apply(v, PinRoutesFenced(m.id)), ops);
    ApplyKeepsConsistent(v, PinRoutesFenced(m.id));
    RunKeepsConsistent(Apply(v, PinRoutesFenced(m.id)), ops);
    OpenAfter(u, OpenRoutes(m));
    StoredAfterOp(u, OpenRoutes(m));
    FenceAfter(u, OpenRoutes(m));
    if SlotOf(m).Some? { RoutedAfter(u, OpenRoutes(m), SlotOf(m).value); }
  }

  /** Runtime metadata updates never open a route, whatever metadata they carry. */
  lemma {:induction false} PreservingNeverOpens(v: View, ops: seq<Op>, id: string)
    requires Consistent(v) && !Open(v, id)
    requires forall op <- ops :: op.UpsertPreservingFence? || Target(op) != id
    ensures !Open(Run(v, ops), id) && Unfound(Run(v, ops), id)
    decreases |ops|
  {
    if ops == [] {
      ClosedIsUnfound(v, id);
    } else {
      assert ops[0] in ops;
      ApplyKeepsConsistent(v, ops[0]);
      PreservingNeverOpens(Apply(v, ops[0]), ops[1..], id);
    }
  }

  // ---- who answers on a key --------------------------------------------------------------

  /** The slot an operation publishes, if any. */
  function Publishes(v: View, op: Op): Option<Slot> {
    match op
    case Upsert(m) => if m.id !in v.pinned && RouteEligible(m) then SlotOf(m) else None
    case OpenRoutes(m) => if RouteEligible(m) then SlotOf(m) else None
    case UpsertPreservingFence(m) =>
      if Open(v, m.id) && m.id !in v.pinned && RouteEligible(m) then SlotOf(m) else None
    case _ => None
  }

  lemma PublicationsAfter(v: View, op: Op)
    ensures Apply(v, op).lastPublished ==
            match Publishes(v, op)
            case Some(slot) => v.lastPublished[slot := Publication(Target(op), v.bumps + 1)]
            case None => v.lastPublished
    ensures Publishes(v, op).Some? ==> Open(Apply(v, op), Target(op))
    ensures Consistent(v) && Open(Apply(v, op), Target(op))
            ==> Publishes(v, op) == SlotOf(Apply(v, op).instances[Target(op)])
  {
  }

  /** The effect of any operation on any slot of the keyed index. */
  lemma RoutedAfter(v: View, op: Op, slot: Slot)
    requires Consistent(v)
    ensures Routed(Apply(v, op), slot) ==
            if Publishes(v, op) == Some(slot) then Some(Target(op))
            else if Routed(v, slot) == Some(Target(op)) then None
            else Routed(v, slot)
  {
    PublicationsAfter(v, op);
    if slot in v.lastPublished {
      var p := v.lastPublished[slot];
      assert Honest(v, slot, p);
      if p.id != Target(op) { OthersAlike(v, op, p.id); } else if p.id in v.instances { TouchedIsStale(v, op, p.id); }
    }
  }

  /** The effect of any operation on any entry of the password index. */
  lemma PasswordIdsAfter(v: View, op: Op, protocol: Protocol, hash: string)
    requires Consistent(v)
    ensures var w, t := Apply(v, op), Target(op);
            PasswordIds(w, protocol, hash) ==
            PasswordIds(v, protocol, hash) - {t}
            + (if Open(w, t) && w.instances[t].protocol == protocol && w.instances[t].passwordHash == Some(hash)
               then {t} else {})
  {
    var w, t := Apply(v, op), Target(op);
    forall id | id != t ensures id in PasswordIds(w, protocol, hash) <==> id in PasswordIds(v, protocol, hash) {
      OthersAlike(v, op, id);
    }
  }

  predicate NeverPublished(v: View, ops: seq<Op>, slot: Slot)
    decreases |ops|
  {
    ops == [] || (Publishes(v, ops[0]) != Some(slot) && NeverPublished(Apply(v, ops[0]), ops[1..], slot))
  }

  predicate Overtaken(v: View, slot: Slot, id: string) {
    slot in v.lastPublished && v.lastPublished[slot].id != id
    && id in v.stamps && v.lastPublished[slot].stamp > v.stamps[id]
  }

  lemma {:induction false} OvertakenStays(v: View, ops: seq<Op>, slot: Slot, id: string)
    requires Consistent(v) && Overtaken(v, slot, id) && Untouched(ops, id)
    ensures Overtaken(Run(v, ops), slot, id)
    decreases |ops|
  {
    if ops != [] {
      assert ops[0] in ops;
      ApplyKeepsConsistent(v, ops[0]);
      PublicationsAfter(v, ops[0]);
      OvertakenStays(Apply(v, ops[0]), ops[1..], slot, id);
    }
  }

  /** The last publication wins: an instance that answers on a slot and is left
      alone keeps answering if and only if nobody else publishes the slot, even
      when the newcomer is later fenced or removed. */
  lemma {:induction false} LastPublicationWins(v: View, ops: seq<Op>, slot: Slot, id: string)
    requires Consistent(v) && Routed(v, slot) == Some(id) && Untouched(ops, id)
    ensures Routed(Run(v, ops), slot) == Some(id) <==> NeverPublished(v, ops, slot)
    decreases |ops|
  {
    if ops != [] {
      var w, rest := Apply(v, ops[0]), ops[1..];
      assert ops[0] in ops;
      ApplyKeepsConsistent(v, ops[0]);
      PublicationsAfter(v, ops[0]);
      assert Honest(v, slot, v.lastPublished[slot]);
      if Publishes(v, ops[0]) == Some(slot) {
        OvertakenStays(w, rest, slot, id);
      } else {
        LastPublicationWins(w, rest, slot, id);
      }
    }
  }

  /** Every open instance answers on its own key. */
  ghost predicate Complete(v: View) {
    forall id, slot :: Open(v, id) && SlotOf(v.instances[id]) == Some(slot) ==> Routed(v, slot) == Some(id)
  }

  ghost predicate DistinctKeys(v: View) {
    forall i, j | Open(v, i) && Open(v, j) && SlotOf(v.instances[i]).Some? ::
      SlotOf(v.instances[i]) == SlotOf(v.instances[j]) ==> i == j
  }

  ghost predicate DistinctThroughout(v: View, ops: seq<Op>)
    decreases |ops|
  {
    DistinctKeys(v) && (ops == [] || DistinctThroughout(Apply(v, ops[0]), ops[1..]))
  }

  lemma OwnPublication(v: View, op: Op)
    requires Publishes(v, op).Some?
    ensures Routed(Apply(v, op), Publishes(v, op).value) == Some(Target(op))
  {
  }

  lemma ApplyKeepsComplete(v: View, op: Op)
    requires Consistent(v) && Complete(v) && DistinctKeys(Apply(v, op))
    ensures Complete(Apply(v, op))
  {
    PublicationsAfter(v, op);
    ApplyKeepsConsistent(v, op);
    forall id, slot | Open(Apply(v, op), id) && SlotOf(Apply(v, op).instances[id]) == Some(slot)
      ensures Routed(Apply(v, op), slot) == Some(id)
    {
      if Target(op) != id { OthersAlike(v, op, id); } else { OwnPublication(v, op); }
    }
  }

  /** As long as open instances never share a key, the keyed index is exactly
      the set of open instances. */
  lemma {:induction false} DistinctKeysAllRouted(v: View, ops: seq<Op>, id: string, slot: Slot)
    requires Consistent(v) && Complete(v) && DistinctThroughout(v, ops)
    ensures var w := Run(v, ops);
            Routed(w, slot) == Some(id) <==> Open(w, id) && SlotOf(w.instances[id]) == Some(slot)
    decreases |ops|
  {
    if ops == [] {
      if slot in v.lastPublished { assert Honest(v, slot, v.lastPublished[slot]); }
    } else {
      ApplyKeepsConsistent(v, ops[0]);
      ApplyKeepsComplete(v, ops[0]);
      DistinctKeysAllRouted(Apply(v, ops[0]), ops[1..], id, slot);
    }
  }

  /** With nothing stored there is nothing to answer. */
  lemma EmptyComplete()
    ensures Consistent(EMPTY) && Complete(EMPTY)
  {
  }

  /** No two eligible entries of different instances have one key. */
  predicate DistinctEntries(list: seq<Instance>) {
    forall i, j :: 0 <= i < |list| && 0 <= j < |list| && ShareKey(list[i], list[j]) ==> list[i].id == list[j].id
  }

  predicate ShareKey(m: Instance, n: Instance) {
    RouteEligible(m) && RouteEligible(n) && SlotOf(m).Some? && SlotOf(m) == SlotOf(n)
  }

  lemma {:induction false} LoadedFromList(list: seq<Instance>, id: string)
    requires id in Loaded(list).instances
    ensures Loaded(list).instances[id] in list && Loaded(list).instances[id].id == id
  {
    var n := |list| - 1;
    if list[n].id != id { LoadedFromList(list[..n], id); }
  }

  lemma LoadedDistinct(list: seq<Instance>)
    requires DistinctEntries(list)
    ensures DistinctKeys(Loaded(list))
  {
    var v := Loaded(list);
    forall i, j | Open(v, i) && Open(v, j) && SlotOf(v.instances[i]).Some?
                  && SlotOf(v.instances[i]) == SlotOf(v.instances[j])
      ensures i == j
    {
      LoadedFromList(list, i);
      LoadedFromList(list, j);
    }
  }

  /** The store the daemon starts from answers for every open instance, if no two
      stored entries have one key. */
  lemma {:induction false} LoadedComplete(list: seq<Instance>)
    requires DistinctEntries(list)
    ensures Consistent(Loaded(list)) && Complete(Loaded(list))
  {
    LoadedConsistent(list);
    if list != [] {
      var n := |list| - 1;
      LoadedComplete(list[..n]);
      LoadedDistinct(list);
      ApplyKeepsComplete(Loaded(list[..n]), Upsert(list[n]));
    }
  }

  /** Without distinct keys it is not: fencing the newcomer strands the first
      instance, still open but answering on no key; only a password lookup, where
      its protocol has one, still finds it. */
  lemma SharedKeyStrandsFirst(first: Instance, second: Instance)
    requires ShareKey(first, second) && first.id != second.id
    ensures var both := Apply(Apply(EMPTY, Upsert(first)), Upsert(second));
            var w := Apply(both, FenceRoutes(second.id));
            && Consistent(w) && Open(w, first.id) && (forall slot :: Routed(w, slot) != Some(first.id))
            && forall p, h :: first.id in PasswordIds(w, p, h) <==> first.protocol == p && first.passwordHash == Some(h)
  {
    var one := Apply(EMPTY, Upsert(first));
    var both := Apply(one, Upsert(second));
    EmptyComplete();
    ApplyKeepsConsistent(EMPTY, Upsert(first));
    ApplyKeepsConsistent(one, Upsert(second));
    ApplyKeepsConsistent(both, FenceRoutes(second.id));
    assert both.lastPublished[SlotOf(first).value] == Publication(second.id, 2);
  }

  // ---- what a fence-preserving upsert does to the answers -------------------------------

  ghost predicate SameKeyAnswers(v: View, w: View) {
    forall slot :: Routed(w, slot) == Routed(v, slot)
  }

  /** A password lookup answers with an instance exactly when it is alone with that
      password. */
  ghost predicate SamePasswordAnswers(v: View, w: View) {
    forall p, h | HasPasswords(p) :: SameAnswer(PasswordIds(v, p, h), PasswordIds(w, p, h))
  }

  ghost predicate SameAnswer(was: set<string>, now: set<string>) {
    forall id :: now == {id} <==> was == {id}
  }

  /** The instance is open and answers on the key its metadata gives it. */
  predicate AnswersOnItsKey(v: View, id: string)
    requires id in v.instances
  {
    SlotOf(v.instances[id]).Some? && Routed(v, SlotOf(v.instances[id]).value) == Some(id)
  }

  /** The instance is not open, or already answers on the key the new metadata
      publishes, or has no key to publish and answers on none. */
  predicate KeepsKeys(v: View, m: Instance) {
    Open(v, m.id) ==>
      if RouteEligible(m) && SlotOf(m).Some? then Routed(v, SlotOf(m).value) == Some(m.id)
      else !AnswersOnItsKey(v, m.id)
  }

  lemma PreservingPublishes(v: View, m: Instance)
    requires Consistent(v)
    ensures Publishes(v, UpsertPreservingFence(m)) == if Open(v, m.id) && RouteEligible(m) then SlotOf(m) else None
  {
  }

  lemma PreservingKeepsKeysIff(v: View, m: Instance)
    requires Consistent(v)
    ensures SameKeyAnswers(v, Apply(v, UpsertPreservingFence(m))) <==> KeepsKeys(v, m)
  {
    var op := UpsertPreservingFence(m);
    forall slot ensures Routed(v, slot) == Some(m.id) ==>
                          Open(v, m.id) && SlotOf(v.instances[m.id]) == Some(slot) {
      if slot in v.lastPublished { assert Honest(v, slot, v.lastPublished[slot]); }
    }
    forall slot ensures Routed(Apply(v, op), slot) ==
                        if Publishes(v, op) == Some(slot) then Some(m.id)
                        else if Routed(v, slot) == Some(m.id) then None else Routed(v, slot) {
      RoutedAfter(v, op, slot);
    }
    PreservingPublishes(v, m);
  }

  /** The entry of the password index that an open instance belongs to. */
  function PasswordKey(m: Instance): Option<(Protocol, string)> {
    if HasPasswords(m.protocol) && m.passwordHash.Some? then Some((m.protocol, m.passwordHash.value)) else None
  }

  function KeyBefore(v: View, id: string): Option<(Protocol, string)> {
    if Open(v, id) then PasswordKey(v.instances[id]) else None
  }

  function KeyAfter(v: View, m: Instance): Option<(Protocol, string)> {
    if Open(v, m.id) && RouteEligible(m) then PasswordKey(m) else None
  }

  lemma PreservingEntry(v: View, m: Instance, p: Protocol, h: string)
    requires Consistent(v) && HasPasswords(p)
    ensures m.id in PasswordIds(v, p, h) <==> KeyBefore(v, m.id) == Some((p, h))
    ensures PasswordIds(Apply(v, UpsertPreservingFence(m)), p, h) ==
            PasswordIds(v, p, h) - {m.id} + (if KeyAfter(v, m) == Some((p, h)) then {m.id} else {})
  {
    PasswordIdsAfter(v, UpsertPreservingFence(m), p, h);
  }

  /** Leaving a set keeps its answer exactly if at least two others stay. */
  lemma LeavingKeepsAnswerIff(s: set<string>, x: string)
    requires x in s
    ensures SameAnswer(s, s - {x}) <==> |s| >= 3
    ensures SameAnswer(s - {x}, s) <==> |s| >= 3
  {
    var rest := s - {x};
    if |s| >= 3 {
      forall y ensures s != {y} && rest != {y} { assert |{y}| == 1; }
    } else if |rest| == 0 {
      assert s == {x} && rest != {x};
    } else {
      var y :| y in rest;
      SingleMember(rest, y);
      assert s != {y};
    }
  }

  lemma SingleMember(s: set<string>, x: string)
    requires |s| == 1 && x in s
    ensures s == {x}
  {
    assert |s - {x}| == 0;
  }

  lemma MemberMovedIff(s: set<string>, x: string, stays: bool)
    ensures SameAnswer(s, s - {x} + (if stays then {x} else {})) <==>
            (x in s && !stays ==> |s| >= 3) && (stays && x !in s ==> |s| >= 2)
  {
    var after := s - {x} + (if stays then {x} else {});
    if x in s && !stays {
      LeavingKeepsAnswerIff(s, x);
      assert after == s - {x};
    } else if x !in s && stays {
      LeavingKeepsAnswerIff(s + {x}, x);
      assert after == s + {x} && after - {x} == s;
    } else {
      assert after == s;
    }
  }

  /** The instance keeps its password entry, or neither the entry it leaves nor the
      one it joins has an answer to lose or to gain. */
  predicate KeepsPasswords(v: View, m: Instance) {
    var was, now := KeyBefore(v, m.id), KeyAfter(v, m);
    was != now ==>
      && (was.Some? ==> |PasswordIds(v, was.value.0, was.value.1)| >= 3)
      && (now.Some? ==> |PasswordIds(v, now.value.0, now.value.1)| >= 2)
  }

  lemma EntryKeptIff(v: View, m: Instance, p: Protocol, h: string)
    requires Consistent(v) && HasPasswords(p)
    ensures var key := Some((p, h));
            var was, now := KeyBefore(v, m.id) == key, KeyAfter(v, m) == key;
            SameAnswer(PasswordIds(v, p, h), PasswordIds(Apply(v, UpsertPreservingFence(m)), p, h)) <==>
            (was && !now ==> |PasswordIds(v, p, h)| >= 3) && (now && !was ==> |PasswordIds(v, p, h)| >= 2)
  {
    PreservingEntry(v, m, p, h);
    MemberMovedIff(PasswordIds(v, p, h), m.id, KeyAfter(v, m) == Some((p, h)));
  }

  lemma PreservingKeepsPasswordsIff(v: View, m: Instance)
    requires Consistent(v)
    ensures SamePasswordAnswers(v, Apply(v, UpsertPreservingFence(m))) <==> KeepsPasswords(v, m)
  {
    var w := Apply(v, UpsertPreservingFence(m));
    var was, now := KeyBefore(v, m.id), KeyAfter(v, m);
    if KeepsPasswords(v, m) {
      forall p, h | HasPasswords(p) ensures SameAnswer(PasswordIds(v, p, h), PasswordIds(w, p, h)) {
        EntryKeptIff(v, m, p, h);
      }
    } else {
      if was.Some? { EntryKeptIff(v, m, was.value.0, was.value.1); }
      if now.Some? { EntryKeptIff(v, m, now.value.0, now.value.1); }
    }
  }

  /** Reachability is unchanged, for every key and every password, if and only if both
      halves of the condition hold. */
  lemma PreservingKeepsReachabilityIff(v: View, m: Instance)
    requires Consistent(v)
    ensures var w := Apply(v, UpsertPreservingFence(m));
            SameKeyAnswers(v, w) && SamePasswordAnswers(v, w) <==> KeepsKeys(v, m) && KeepsPasswords(v, m)
  {
    PreservingKeepsKeysIff(v, m);
    PreservingKeepsPasswordsIff(v, m);
  }

  /** Some lookup answers with the instance. */
  ghost predicate Answered(v: View, id: string) {
    || (exists slot :: Routed(v, slot) == Some(id))
    || (exists p, h :: HasPasswords(p) && PasswordIds(v, p, h) == {id})
  }

  /** An instance no lookup answers with starts to be answered by its own preserving
      upsert if and only if it was open all the same and has a key to publish. */
  lemma PreservingRevivesIff(v: View, m: Instance)
    requires Consistent(v) && !Answered(v, m.id)
    ensures Answered(Apply(v, UpsertPreservingFence(m)), m.id) <==>
            Open(v, m.id) && RouteEligible(m) && SlotOf(m).Some?
  {
    var op := UpsertPreservingFence(m);
    PreservingPublishes(v, m);
    forall slot ensures Routed(Apply(v, op), slot) == Some(m.id) <==> Publishes(v, op) == Some(slot) {
      RoutedAfter(v, op, slot);
    }
    forall p, h | HasPasswords(p) && PasswordIds(Apply(v, op), p, h) == {m.id} ensures KeyAfter(v, m) == Some((p, h)) {
      PreservingEntry(v, m, p, h);
    }
  }

  /** Another instance starts to be answered by it if and only if the upserted one
      leaves a password entry that only the two of them shared. */
  lemma PreservingRevealsOtherIff(v: View, m: Instance, other: string)
    requires Consistent(v) && other != m.id && !Answered(v, other)
    ensures Answered(Apply(v, UpsertPreservingFence(m)), other) <==>
            var was := KeyBefore(v, m.id);
            was.Some? && was != KeyAfter(v, m) && PasswordIds(v, was.value.0, was.value.1) == {m.id, other}
  {
    var op := UpsertPreservingFence(m);
    var w, was := Apply(v, op), KeyBefore(v, m.id);
    forall slot ensures Routed(w, slot) != Some(other) { RoutedAfter(v, op, slot); }
    forall p, h | HasPasswords(p)
      ensures PasswordIds(w, p, h) == {other} <==>
              was == Some((p, h)) && was != KeyAfter(v, m) && PasswordIds(v, p, h) == {m.id, other}
    {
      PreservingEntry(v, m, p, h);
      assert PasswordIds(v, p, h) != {other};
    }
  }

  /** Hence it can change reachability: with a shared key it takes the key from the
      later instance, which stays open, and after a fence of that one it makes the
      stranded first instance answer. */
  lemma PreservingMovesSharedKey(first: Instance, second: Instance)
    requires ShareKey(first, second) && first.id != second.id
    ensures var both := Apply(Apply(EMPTY, Upsert(first)), Upsert(second));
            var moved := Apply(both, UpsertPreservingFence(first));
            var slot := SlotOf(first).value;
            && Routed(both, slot) == Some(second.id) && Routed(moved, slot) == Some(first.id)
            && Open(moved, second.id) && forall x :: Routed(moved, x) != Some(second.id)
    ensures var w := Apply(Apply(Apply(EMPTY, Upsert(first)), Upsert(second)), FenceRoutes(second.id));
            && (forall x :: Routed(w, x) != Some(first.id))
            && Routed(Apply(w, UpsertPreservingFence(first)), SlotOf(first).value) == Some(first.id)
  {
    var both := Apply(Apply(EMPTY, Upsert(first)), Upsert(second));
    SharedKeyStrandsFirst(first, second);
    assert both.lastPublished == map[SlotOf(first).value := Publication(second.id, 2)];
  }

  /** And with distinct keys: when one of two instances sharing a password gets a new
      one, every key answers as before, but the old password starts to answer with the
      other, which nobody touched. */
  lemma PreservingUncoversPassword(a: Instance, b: Instance, changed: string)
    requires RouteEligible(a) && RouteEligible(b) && a.id != b.id && a.username != b.username
    requires HasPasswords(a.protocol) && b.protocol == a.protocol
    requires a.passwordHash.Some? && b.passwordHash == a.passwordHash && a.passwordHash != Some(changed)
    ensures var v := Apply(Apply(EMPTY, Upsert(a)), Upsert(b));
            var w := Apply(v, UpsertPreservingFence(a.(passwordHash := Some(changed))));
            && SameKeyAnswers(v, w)
            && PasswordIds(v, a.protocol, a.passwordHash.value) == {a.id, b.id}
            && PasswordIds(w, a.protocol, a.passwordHash.value) == {b.id}
  {
    var one := Apply(EMPTY, Upsert(a));
    var v := Apply(one, Upsert(b));
    EmptyComplete();
    ApplyKeepsConsistent(EMPTY, Upsert(a));
    ApplyKeepsConsistent(one, Upsert(b));
    RoutedAfter(EMPTY, Upsert(a), SlotOf(a).value);
    RoutedAfter(one, Upsert(b), SlotOf(a).value);
    PreservingKeepsKeysIff(v, a.(passwordHash := Some(changed)));
    PreservingEntry(v, a.(passwordHash := Some(changed)), a.protocol, a.passwordHash.value);
  }
}
